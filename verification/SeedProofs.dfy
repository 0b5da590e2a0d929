/** A marker reads back as it was written, a torn one reads as nothing or as the same seed, and a
    directory with a marker never starts as a home. */
module SeedProofs {
  import opened Basics
  import opened Text
  import opened Seed

  ghost predicate Notice(notice: seq<string>) {
    forall i :: 0 <= i < |notice| ==> notice[i] != "" && notice[i][0] == '#' && '\n' !in notice[i]
  }

  lemma {:induction false} NoticeLine(a: string, b: string)
    requires a != "" && a[0] == '#' && '\n' !in a && '\n' !in b
    ensures a + b != "" && (a + b)[0] == '#' && '\n' !in a + b
  {
  }

  /** The notice `choir seed` writes is one. */
  lemma {:induction false} NoticeIsNotice()
    ensures Notice(NOTICE)
  {
    FirstTwo();
    NoticeLine("# this state directory a home again ", "(its log would then be");
    assert '\n' !in "# one nobody else writes to).";
  }

  lemma {:induction false} FirstTwo()
    ensures NOTICE[0] != "" && NOTICE[0][0] == '#' && '\n' !in NOTICE[0]
    ensures NOTICE[1] != "" && NOTICE[1][0] == '#' && '\n' !in NOTICE[1]
  {
    NoticeLine("# This node is a seed of another ", "node's log (D80). Written by");
    NoticeLine("# `choir seed`; `choir node serve` ", "reads it. Delete it to make");
  }

  /** A seed whose home and credential are single lines without white space around them, the home
      without a slash at its end. */
  predicate WellFormed(s: Seed) {
    && '\n' !in s.home && '\n' !in s.credential
    && TrimSlashes(Trim(s.home)) == s.home && Trim(s.credential) == s.credential
  }

  // ---- single lines --------------------------------------------------------------------------------

  lemma {:induction false} AbsorbStripped(r: Reading, line: string)
    ensures Absorb(r, StripReturn(line)) == Absorb(r, line)
  {
    StripKeepsTrim(line);
  }

  lemma {:induction false} AbsorbAllStripped(lines: seq<string>)
    ensures AbsorbAll(Strip(lines)) == AbsorbAll(lines)
  {
    if lines != [] {
      var n := |lines| - 1;
      AbsorbAllStripped(lines[..n]);
      assert Strip(lines)[..n] == Strip(lines[..n]);
      AbsorbStripped(AbsorbAll(lines[..n]), lines[n]);
    }
  }

  lemma {:induction false} HashStays(line: string)
    requires line != "" && line[0] == '#'
    ensures Trim(line) != "" && Trim(line)[0] == '#'
  {
    assert TrimStart(line) == line;
    TrimEndKeeps(line);
  }

  lemma {:induction false} NoticeSaysNothing(notice: seq<string>)
    requires Notice(notice)
    ensures AbsorbAll(notice) == Read(None, None, None)
  {
    if notice != [] {
      var n := |notice| - 1;
      assert Notice(notice[..n]);
      NoticeSaysNothing(notice[..n]);
      HashStays(notice[n]);
    }
  }

  lemma {:induction false} EntryAbsorbed(r: Reading, name: string, value: string)
    requires Name(name)
    ensures var l := Trim(Entry(name, value));
      l != "" && l[0] != '#' && HasKey(l) && KeyOf(l) == name && ValueOf(l) == Trim(value)
  {
    var line := Entry(name, value);
    EntryReads(name, value);
    TrimKeepsEntry(line);
    EntryStarts(name, value);
  }

  lemma {:induction false} MarkerNames()
    ensures Name("home") && Name("credential") && Name("serve") && Trim("yes") == "yes" && Trim("no") == "no"
  {
    PlainIsName("home");
    PlainIsName("credential");
    PlainIsName("serve");
    PlainIsName("yes");
    PlainIsName("no");
  }

  /** What has been read after the notice and the first `j` answers. */
  function Progress(s: Seed, j: nat): Reading {
    Read(if j >= 1 then Some(TrimSlashes(Trim(s.home))) else None,
         if j >= 2 then Some(Trim(s.credential)) else None,
         if j >= 3 then Some(s.serve) else None)
  }

  lemma {:induction false} HomeRead(s: Seed)
    ensures Absorb(Progress(s, 0), Entry("home", s.home)) == Progress(s, 1)
  {
    MarkerNames();
    EntryAbsorbed(Progress(s, 0), "home", s.home);
  }

  lemma {:induction false} CredentialRead(s: Seed)
    ensures Absorb(Progress(s, 1), Entry("credential", s.credential)) == Progress(s, 2)
  {
    MarkerNames();
    EntryAbsorbed(Progress(s, 1), "credential", s.credential);
  }

  lemma {:induction false} ServeRead(s: Seed)
    ensures Absorb(Progress(s, 2), Entry("serve", ServeWord(s.serve))) == Progress(s, 3)
  {
    MarkerNames();
    EntryAbsorbed(Progress(s, 2), "serve", ServeWord(s.serve));
  }

  lemma {:induction false} AnswerStep(s: Seed, answers: seq<string>, j: nat)
    requires j < 3 && answers == Answers(s)
    ensures Absorb(Progress(s, j), answers[j]) == Progress(s, j + 1)
  {
    HomeRead(s);
    CredentialRead(s);
    ServeRead(s);
  }

  lemma {:induction false} OneMoreRead(ls: seq<string>, k: nat)
    requires k < |ls|
    ensures AbsorbAll(ls[..k + 1]) == Absorb(AbsorbAll(ls[..k]), ls[k])
  {
    assert ls[..k + 1][..k] == ls[..k];
  }

  lemma {:induction false} AnswersRead(notice: seq<string>, s: Seed, answers: seq<string>, j: nat)
    requires Notice(notice) && answers == Answers(s) && j <= 3
    ensures AbsorbAll((notice + answers)[..|notice| + j]) == Progress(s, j)
  {
    var ls := notice + answers;
    if j == 0 {
      assert ls[..|notice|] == notice;
      NoticeSaysNothing(notice);
    } else {
      AnswersRead(notice, s, answers, j - 1);
      OneMoreRead(ls, |notice| + j - 1);
      assert ls[|notice| + j - 1] == answers[j - 1];
      AnswerStep(s, answers, j - 1);
    }
  }

  lemma {:induction false} MarkerUnbroken(notice: seq<string>, s: Seed)
    requires Notice(notice) && '\n' !in s.home && '\n' !in s.credential
    ensures Unbroken(notice + Answers(s))
  {
    assert '\n' !in Entry("home", s.home) && '\n' !in Entry("credential", s.credential) && '\n' !in Entry("serve", ServeWord(s.serve));
  }

  lemma {:induction false} AllLinesRead(notice: seq<string>, s: Seed)
    requires Notice(notice)
    ensures AbsorbAll(notice + Answers(s)) == Progress(s, 3)
  {
    var ls := notice + Answers(s);
    AnswersRead(notice, s, Answers(s), 3);
    assert ls[..|notice| + 3] == ls;
  }

  lemma {:induction false} RenderParses(notice: seq<string>, s: Seed)
    requires Notice(notice) && '\n' !in s.home && '\n' !in s.credential
    ensures ParseSpec(Render(notice, s)) == Some(Seed(TrimSlashes(Trim(s.home)), Trim(s.credential), s.serve))
  {
    MarkerUnbroken(notice, s);
    LinesOfJoin(notice + Answers(s));
    AbsorbAllStripped(notice + Answers(s));
    AllLinesRead(notice, s);
  }

  // ---- reading back ----------------------------------------------------------------------------------

  ghost predicate OneLine(o: Option<string>) {
    o.Some? ==> '\n' !in o.value
  }

  lemma {:induction false} TrimIsInside(s: string)
    requires '\n' !in s
    ensures '\n' !in Trim(s)
  {
    var w, v := TrimSplits(s);
    forall i | 0 <= i < |Trim(s)|
      ensures Trim(s)[i] != '\n'
    {
      assert s[|w| + i] == Trim(s)[i];
    }
  }

  lemma {:induction false} ValueIsInside(line: string)
    requires HasKey(line) && '\n' !in line
    ensures '\n' !in ValueOf(line) && '\n' !in TrimSlashes(ValueOf(line))
  {
    var rest := line[Find(line, '=') + 1..];
    assert '\n' !in rest;
    TrimIsInside(rest);
    var t := TrimSlashes(ValueOf(line));
    assert forall i :: 0 <= i < |t| ==> t[i] == ValueOf(line)[i];
  }

  lemma {:induction false} ReadingIsOneLine(lines: seq<string>)
    requires Unbroken(lines)
    ensures var r := AbsorbAll(lines); r.Read? ==> OneLine(r.home) && OneLine(r.credential)
  {
    if lines != [] {
      var n := |lines| - 1;
      ReadingIsOneLine(lines[..n]);
      assert '\n' !in lines[n];
      TrimIsInside(lines[n]);
      var l := Trim(lines[n]);
      if HasKey(l) {
        ValueIsInside(l);
      }
    }
  }

  /** A marker reads back as the seed it was written for exactly when the seed is well formed. */
  lemma {:induction false} MarkerRoundTrip(notice: seq<string>, s: Seed)
    requires Notice(notice)
    ensures ParseSpec(Render(notice, s)) == Some(s) <==> WellFormed(s)
  {
    if '\n' !in s.home && '\n' !in s.credential {
      RenderParses(notice, s);
    } else {
      LinesUnbroken(Render(notice, s));
      ReadingIsOneLine(Lines(Render(notice, s)));
    }
  }

  // ---- a torn marker -------------------------------------------------------------------------------------

  /** The start of a `key = value` line has the line's key, if it has one. */
  lemma {:induction false} PrefixKey(q: string, line: string)
    requires q <= line && HasKey(q)
    ensures HasKey(line) && KeyOf(q) == KeyOf(line)
    ensures q[Find(q, '=') + 1..] <= line[Find(line, '=') + 1..]
  {
    var k := Find(q, '=');
    assert q[k] == '=';
    assert line[k] == q[k] && forall i :: 0 <= i < k ==> line[i] == q[i];
    FindIs(line, '=', k);
    assert line[..k] == q[..k];
  }

  /** The start of an answer line other than the last does not answer whether to serve. */
  lemma {:induction false} PartialAnswer(r: Reading, name: string, value: string, q: string)
    requires Name(name) && name != "serve" && r.Read? && r.serve.None? && q <= Entry(name, value)
    ensures Absorb(r, q).Broken? || Absorb(r, q).serve.None?
  {
    TrimKeepsEntry(q);
    if HasKey(q) {
      PrefixKey(q, Entry(name, value));
      EntryReads(name, value);
    }
  }

  lemma {:induction false} PartialNotice(r: Reading, line: string, q: string)
    requires line != "" && line[0] == '#' && q <= line
    ensures Absorb(r, q) == r
  {
    if q != "" {
      assert q[0] == line[0];
      HashStays(q);
    }
  }

  lemma {:induction false} WordPrefix(rest: string, word: string)
    requires rest <= " " + word && Plain(word)
    ensures Trim(rest) <= word
  {
    if rest == "" {
      assert Trim(rest) == "";
    } else {
      assert rest[0] == ' ';
      var w := rest[1..];
      assert rest == " " + w && w == word[..|w|];
      TrimPrepend(" ", w);
      if w == "" {
        assert Trim("") == "";
      } else {
        assert Plain(w);
        PlainIsName(w);
      }
    }
  }

  lemma {:induction false} ServeValue(serve: bool, q: string)
    requires q <= Entry("serve", ServeWord(serve)) && HasKey(q)
    ensures KeyOf(q) == "serve" && ValueOf(q) <= ServeWord(serve)
  {
    var line := Entry("serve", ServeWord(serve));
    MarkerNames();
    PrefixKey(q, line);
    EntryReads("serve", ServeWord(serve));
    ServeRest(line, serve);
    assert Plain(ServeWord(serve));
    WordPrefix(q[Find(q, '=') + 1..], ServeWord(serve));
  }

  /** The start of the last line gives the right answer or none. */
  lemma {:induction false} PartialServe(r: Reading, serve: bool, q: string)
    requires r.Read? && r.serve.None? && q <= Entry("serve", ServeWord(serve))
    ensures var a := Absorb(r, q); a.Broken? || a == r || a == r.(serve := Some(serve))
  {
    TrimKeepsEntry(q);
    if HasKey(q) {
      ServeValue(serve, q);
      OneWord(ValueOf(q), serve);
    }
  }

  lemma {:induction false} ServeRest(line: string, serve: bool)
    requires line == Entry("serve", ServeWord(serve))
    ensures Find(line, '=') < |line| && line[Find(line, '=') + 1..] == " " + ServeWord(serve)
  {
    assert line == "serve " + ("=" + (" " + ServeWord(serve)));
    FindIs(line, '=', 6);
  }

  lemma {:induction false} OneWord(w: string, serve: bool)
    requires w <= ServeWord(serve)
    ensures w == "yes" ==> serve
    ensures w == "no" ==> !serve
  {
    if |w| > 0 {
      assert w[0] == ServeWord(serve)[0];
    }
  }

  lemma {:induction false} TornAnswer(s: Seed, j: nat, q: string)
    requires j < 3 && q <= Answers(s)[j]
    ensures var a := Absorb(Progress(s, j), q); Complete(a).None? || a == Progress(s, 3)
  {
    MarkerNames();
    if j == 0 {
      PartialAnswer(Progress(s, 0), "home", s.home, q);
    } else if j == 1 {
      PartialAnswer(Progress(s, 1), "credential", s.credential, q);
    } else {
      PartialServe(Progress(s, 2), s.serve, q);
    }
  }

  lemma {:induction false} TornReading(notice: seq<string>, s: Seed, answers: seq<string>, k: nat, q: string)
    requires Notice(notice) && answers == Answers(s) && k <= |notice| + 3
    requires (k < |notice| + 3 ==> q <= (notice + answers)[k]) && (k == |notice| + 3 ==> q == "")
    ensures var r := AbsorbAll((notice + answers)[..k]);
      var a := if q == "" then r else Absorb(r, q);
      Complete(a).None? || a == Progress(s, 3)
  {
    var ls := notice + answers;
    if k < |notice| {
      assert ls[..k] == notice[..k] && ls[k] == notice[k];
      assert Notice(notice[..k]);
      NoticeSaysNothing(notice[..k]);
      PartialNotice(Read(None, None, None), notice[k], q);
    } else {
      var j := k - |notice|;
      AnswersRead(notice, s, answers, j);
      if j < 3 {
        assert ls[k] == answers[j];
        TornAnswer(s, j, q);
      }
    }
  }

  lemma {:induction false} AbsorbTail(lines: seq<string>, q: string)
    ensures AbsorbAll(lines + Tail(q)) == if q == "" then AbsorbAll(lines) else Absorb(AbsorbAll(lines), q)
  {
    if q == "" {
      assert lines + Tail(q) == lines;
    } else {
      assert (lines + [q])[..|lines + [q]| - 1] == lines;
    }
  }

  /** However a write of the marker was torn, what is left reads as nothing at all or as the very seed
      that was written. */
  lemma {:induction false} TornMarker(notice: seq<string>, s: Seed, text: string)
    requires Notice(notice) && WellFormed(s) && text <= Render(notice, s)
    ensures ParseSpec(text).None? || ParseSpec(text) == Some(s)
  {
    var ls := notice + Answers(s);
    MarkerUnbroken(notice, s);
    var k, q := LinesOfPrefix(ls, text);
    AbsorbAllStripped(ls[..k]);
    AbsorbTail(Strip(ls[..k]), q);
    TornReading(notice, s, Answers(s), k, q);
  }

  // ---- starting ---------------------------------------------------------------------------------------------

  ghost predicate StartsAsSeed(l: Layout, s: Seed, extra: seq<string>, p: Plan) {
    p.Start? ==> SeedHead(l, s) <= p.args && s.credential in l.files && "--keys-file" !in extra
  }

  /** With a marker there, whatever it contains, a start is refused or is that of the seed it names. */
  lemma {:induction false} MarkerNeverStartsHome(l: Layout, create: seq<string>, extra: seq<string>)
    requires l.seedMarker in l.files
    ensures ParseSpec(l.files[l.seedMarker]).None? ==> PlanOf(l, create, extra).Refuse?
    ensures ParseSpec(l.files[l.seedMarker]).Some? ==>
              StartsAsSeed(l, ParseSpec(l.files[l.seedMarker]).value, extra, PlanOf(l, create, extra))
  {
    if SeedOf(l).Some? {
      var s := SeedOf(l).value;
      SeedHeadFirst(l, s, create, extra);
    }
  }

  lemma {:induction false} SeedHeadFirst(l: Layout, s: Seed, create: seq<string>, extra: seq<string>)
    ensures PlanSeed(l, s, create, extra).Start? ==> SeedHead(l, s) <= PlanSeed(l, s, create, extra).args && "--keys-file" !in extra
  {
    var head := SeedHead(l, s);
    var auth := if l.auth in l.files then ["--auth-file", l.auth] else [];
    var acl := if l.acl in l.files then ["--acl-file", l.acl] else [];
    assert head + auth + TlsArgs(l) + acl + extra == head + (auth + TlsArgs(l) + acl + extra);
  }

  /** So a torn marker stops the node or starts it as the seed that was being written, never as a home
      over a log that was a copy. */
  lemma {:induction false} TornMarkerStart(notice: seq<string>, s: Seed, l: Layout, create: seq<string>, extra: seq<string>)
    requires Notice(notice) && WellFormed(s)
    requires l.seedMarker in l.files && l.files[l.seedMarker] <= Render(notice, s)
    ensures StartsAsSeed(l, s, extra, PlanOf(l, create, extra))
  {
    TornMarker(notice, s, l.files[l.seedMarker]);
    MarkerNeverStartsHome(l, create, extra);
  }
}

/** Strings as the program's text handling sees them: lines, white space, first occurrences. */
module Text {
  import opened Sequences

  /** Where `c` first occurs, or the length. */
  function Find(t: string, c: char): (k: nat)
    ensures k <= |t| && forall i :: 0 <= i < k ==> t[i] != c
    ensures k < |t| ==> t[k] == c
  {
    if t == "" || t[0] == c then 0 else 1 + Find(t[1..], c)
  }

  lemma {:induction false} FindIs(t: string, c: char, k: nat)
    requires k <= |t| && (forall i :: 0 <= i < k ==> t[i] != c) && (k < |t| ==> t[k] == c)
    ensures Find(t, c) == k
  {
    var f := Find(t, c);
    assert (f < |t| ==> t[f] == c) && (k < |t| ==> t[k] == c);
  }

  /** A line without the carriage return of a CRLF ending. */
  function StripReturn(line: string): (r: string)
    ensures r <= line && |line| <= |r| + 1
  {
    if line != "" && line[|line| - 1] == '\r' then line[..|line| - 1] else line
  }

  /** The lines of a text: a line feed ends one, a carriage return just before it goes too, and a last
      line without a line feed is kept whole. */
  function Lines(t: string): seq<string> {
    if t == "" then []
    else
      var k := Find(t, '\n');
      if k == |t| then [t] else [StripReturn(t[..k])] + Lines(t[k + 1..])
  }

  /** White space, in the sense of Unicode's White_Space property. */
  predicate White(c: char) {
    var n := c as int;
    || 9 <= n <= 13 || n == 32 || n == 0x85 || n == 0xA0 || n == 0x1680 || 0x2000 <= n <= 0x200A
    || n == 0x2028 || n == 0x2029 || n == 0x202F || n == 0x205F || n == 0x3000
  }

  function TrimStart(s: string): (r: string)
    ensures r == "" || !White(r[0])
  {
    if s != "" && White(s[0]) then TrimStart(s[1..]) else s
  }

  function TrimEnd(s: string): (r: string)
    ensures r <= s && (r == "" || !White(r[|r| - 1]))
  {
    if s != "" && White(s[|s| - 1]) then TrimEnd(s[..|s| - 1]) else s
  }

  function Trim(s: string): string {
    TrimEnd(TrimStart(s))
  }

  /** The first run of characters that are not white space, if there is one. */
  function FirstWord(s: string): string {
    Word(TrimStart(s))
  }

  function Word(s: string): (w: string)
    ensures w <= s
  {
    if s == "" || White(s[0]) then "" else [s[0]] + Word(s[1..])
  }

  predicate AllWhite(s: string) {
    forall i :: 0 <= i < |s| ==> White(s[i])
  }

  /** The pieces between the occurrences of `c`: one more than there are occurrences. */
  function SplitOn(t: string, c: char): (s: seq<string>)
    ensures s != []
  {
    var k := Find(t, c);
    if k == |t| then [t] else [t[..k]] + SplitOn(t[k + 1..], c)
  }

  function JoinWith(s: seq<string>, c: char): string {
    if s == [] then ""
    else if |s| == 1 then s[0]
    else s[0] + [c] + JoinWith(s[1..], c)
  }

  // ---- lines of joined text --------------------------------------------------------------

  /** Every line with its line feed. */
  function Join(ls: seq<string>): string {
    if ls == [] then "" else ls[0] + "\n" + Join(ls[1..])
  }

  function Strip(ls: seq<string>): (r: seq<string>)
    ensures |r| == |ls|
    ensures forall i :: 0 <= i < |ls| ==> r[i] == StripReturn(ls[i])
  {
    if ls == [] then [] else [StripReturn(ls[0])] + Strip(ls[1..])
  }

  ghost predicate Unbroken(ls: seq<string>) {
    forall i :: 0 <= i < |ls| ==> '\n' !in ls[i]
  }

  lemma {:induction false} FirstLine(l: string, rest: string)
    requires '\n' !in l
    ensures Lines(l + "\n" + rest) == [StripReturn(l)] + Lines(rest)
  {
    var t := l + "\n" + rest;
    FindIs(t, '\n', |l|);
    assert t[..|l|] == l && t[|l| + 1..] == rest;
  }

  lemma {:induction false} LinesOfJoin(ls: seq<string>)
    requires Unbroken(ls)
    ensures Lines(Join(ls)) == Strip(ls)
  {
    if ls != [] {
      LinesOfJoin(ls[1..]);
      FirstLine(ls[0], Join(ls[1..]));
    }
  }

  /** What stands in front of the first mark, and behind it. */
  lemma {:induction false} Cut<T>(a: seq<T>, b: seq<T>, mark: T, x: seq<T>, y: seq<T>)
    requires mark !in a && mark !in b && a + ([mark] + x) == b + ([mark] + y)
    ensures a == b && x == y
  {
    var s, t := a + ([mark] + x), b + ([mark] + y);
    assert s[|a|] == mark && t[|b|] == mark;
    assert |a| == |b|;
    assert s[..|a|] == a && t[..|a|] == b;
    assert s[|a| + 1..] == x && t[|a| + 1..] == y;
  }

  /** Closed lines, then one that has no line feed. */
  lemma {:induction false} LinesOfOpen(ls: seq<string>, last: string)
    requires Unbroken(ls) && '\n' !in last && last != ""
    ensures Lines(Join(ls) + last) == Strip(ls) + [last]
  {
    if ls == [] {
      FindIs(last, '\n', |last|);
      assert Join(ls) + last == last;
    } else {
      LinesOfOpen(ls[1..], last);
      FirstLine(ls[0], Join(ls[1..]) + last);
      Assoc(ls[0] + "\n", Join(ls[1..]), last);
      Assoc([StripReturn(ls[0])], Strip(ls[1..]), [last]);
    }
  }

  lemma {:induction false} JoinAppend(a: seq<string>, b: seq<string>)
    ensures Join(a + b) == Join(a) + Join(b)
  {
    if a == [] {
      assert a + b == b;
    } else {
      JoinAppend(a[1..], b);
      assert (a + b)[1..] == a[1..] + b;
    }
  }

  lemma {:induction false} JoinLast(ls: seq<string>, last: string)
    ensures Join(ls + [last]) == Join(ls) + last + "\n"
  {
    JoinAppend(ls, [last]);
    assert Join([last]) == last + "\n" + Join([]);
    Assoc(Join(ls), last, "\n");
  }

  lemma {:induction false} OneMoreUnbroken(l: string, ls: seq<string>)
    requires '\n' !in l && Unbroken(ls)
    ensures Unbroken([StripReturn(l)] + ls)
  {
    assert StripReturn(l) <= l;
  }

  lemma {:induction false} LinesUnbroken(t: string)
    ensures Unbroken(Lines(t))
  {
    if t != "" {
      var k := Find(t, '\n');
      if k < |t| {
        LinesUnbroken(t[k + 1..]);
        OneMoreUnbroken(t[..k], Lines(t[k + 1..]));
      }
    }
  }

  lemma {:induction false} JoinStripped(ls: seq<string>)
    ensures |Join(Strip(ls))| <= |Join(ls)|
    ensures Join(Strip(ls)) == Join(ls) <==> Strip(ls) == ls
  {
    if ls != [] {
      JoinStripped(ls[1..]);
      assert Strip(ls)[1..] == Strip(ls[1..]);
      assert Strip(ls) == [StripReturn(ls[0])] + Strip(ls[1..]);
      if StripReturn(ls[0]) == ls[0] {
        assert Join(ls)[|ls[0]| + 1..] == Join(ls[1..]);
        assert Join(Strip(ls))[|ls[0]| + 1..] == Join(Strip(ls[1..]));
        assert ls == [ls[0]] + ls[1..];
      } else {
        assert |Join(Strip(ls))| < |Join(ls)|;
      }
    }
  }

  /** Lines put together tell what they were. */
  lemma {:induction false} JoinTells(a: seq<string>, b: seq<string>)
    requires Unbroken(a) && Unbroken(b) && Join(a) == Join(b)
    ensures a == b
  {
    if a != [] && b != [] {
      var x, y := a[0] + "\n" + Join(a[1..]), b[0] + "\n" + Join(b[1..]);
      FindIs(x, '\n', |a[0]|);
      FindIs(y, '\n', |b[0]|);
      assert x[..|a[0]|] == a[0] && y[..|b[0]|] == b[0];
      assert x[|a[0]| + 1..] == Join(a[1..]) && y[|b[0]| + 1..] == Join(b[1..]);
      assert forall i :: 0 <= i < |a[1..]| ==> a[1..][i] == a[i + 1];
      assert forall i :: 0 <= i < |b[1..]| ==> b[1..][i] == b[i + 1];
      JoinTells(a[1..], b[1..]);
      assert a == [a[0]] + a[1..] && b == [b[0]] + b[1..];
    }
  }

  function Tail(last: string): seq<string> {
    if last == "" then [] else [last]
  }

  /** A text cut anywhere: some whole lines, and the start of the next. */
  lemma {:induction false} LinesOfPrefix(ls: seq<string>, p: string) returns (k: nat, q: string)
    requires Unbroken(ls) && p <= Join(ls)
    ensures k <= |ls| && (k < |ls| ==> q <= ls[k]) && (k == |ls| ==> q == "")
    ensures Lines(p) == Strip(ls[..k]) + Tail(q)
  {
    if ls == [] {
      k, q := 0, "";
    } else if |p| <= |ls[0]| {
      k, q := 0, p;
      assert p == Join(ls)[..|p|] && p == ls[0][..|p|];
      if p != "" {
        FindIs(p, '\n', |p|);
      }
    } else {
      var rest := p[|ls[0]| + 1..];
      assert Join(ls)[..|ls[0]| + 1] == ls[0] + "\n" && p[..|ls[0]| + 1] == ls[0] + "\n";
      assert p == ls[0] + "\n" + rest;
      assert Join(ls)[|ls[0]| + 1..] == Join(ls[1..]);
      assert Unbroken(ls[1..]);
      FirstLine(ls[0], rest);
      var j;
      j, q := LinesOfPrefix(ls[1..], rest);
      k := j + 1;
      assert ls[..k][1..] == ls[1..][..j] && ls[..k][0] == ls[0];
      Assoc([StripReturn(ls[0])], Strip(ls[1..][..j]), Tail(q));
    }
  }

  // ---- trimming ------------------------------------------------------------------------------

  lemma {:induction false} TrimStartWhite(s: string)
    ensures TrimStart(s) == "" <==> AllWhite(s)
  {
    if s != "" && White(s[0]) {
      TrimStartWhite(s[1..]);
      assert AllWhite(s) ==> AllWhite(s[1..]);
      assert AllWhite(s[1..]) ==> forall i :: 0 < i < |s| ==> s[i] == s[1..][i - 1];
    }
  }

  lemma {:induction false} TrimEmpty(s: string)
    ensures Trim(s) == "" <==> AllWhite(s)
  {
    TrimStartWhite(s);
    var r := TrimStart(s);
    if r != "" {
      TrimEndKeeps(r);
    }
  }

  lemma {:induction false} TrimEndKeeps(s: string)
    requires s != "" && !White(s[0])
    ensures TrimEnd(s) != ""
  {
    if White(s[|s| - 1]) {
      TrimEndKeeps(s[..|s| - 1]);
    }
  }

  /** White space at the end is invisible to trimming. */
  lemma {:induction false} TrimEndAppend(s: string, w: string)
    requires AllWhite(w)
    ensures TrimEnd(s + w) == TrimEnd(s)
  {
    if w == "" {
      assert s + w == s;
    } else {
      assert (s + w)[..|s + w| - 1] == s + w[..|w| - 1];
      TrimEndAppend(s, w[..|w| - 1]);
    }
  }

  lemma {:induction false} TrimStartAppend(s: string, w: string)
    requires AllWhite(w)
    ensures TrimStart(s + w) == if AllWhite(s) then "" else TrimStart(s) + w
  {
    if s == "" {
      assert s + w == w;
      TrimStartWhite(w);
    } else if White(s[0]) {
      assert (s + w)[1..] == s[1..] + w;
      TrimStartAppend(s[1..], w);
      assert AllWhite(s) <==> AllWhite(s[1..]) by {
        assert AllWhite(s[1..]) ==> forall i :: 0 < i < |s| ==> s[i] == s[1..][i - 1];
      }
    }
  }

  lemma {:induction false} TrimAppend(s: string, w: string)
    requires AllWhite(w)
    ensures Trim(s + w) == Trim(s)
  {
    TrimStartAppend(s, w);
    if AllWhite(s) {
      TrimStartWhite(s);
    } else {
      TrimEndAppend(TrimStart(s), w);
    }
  }

  lemma {:induction false} TrimEndSplits(s: string)
    ensures AllWhite(s[|TrimEnd(s)|..])
  {
    if s != "" && White(s[|s| - 1]) {
      TrimEndSplits(s[..|s| - 1]);
      var r := TrimEnd(s);
      assert s[..|s| - 1][|r|..] + [s[|s| - 1]] == s[|r|..];
    }
  }

  lemma {:induction false} TailWhite(p: string)
    requires p != "" && White(p[0])
    ensures AllWhite(p) <==> AllWhite(p[1..])
  {
    forall i | 0 < i < |p|
      ensures p[i] == p[1..][i - 1]
    {
    }
  }

  lemma {:induction false} TrimStartSplits(s: string)
    ensures |TrimStart(s)| <= |s| && s[|s| - |TrimStart(s)|..] == TrimStart(s) && AllWhite(s[..|s| - |TrimStart(s)|])
  {
    if s != "" && White(s[0]) {
      TrimStartSplits(s[1..]);
      var k := |s| - |TrimStart(s)|;
      assert s[1..][k - 1..] == s[k..];
      assert s[..k] == [s[0]] + s[1..][..k - 1];
    }
  }

  lemma {:induction false} TrimPrepend(w: string, s: string)
    requires AllWhite(w)
    ensures Trim(w + s) == Trim(s)
  {
    if w == "" {
      assert w + s == s;
    } else {
      TailWhite(w);
      TrimPrepend(w[1..], s);
      assert (w + s)[1..] == w[1..] + s;
    }
  }

  lemma {:induction false} CutFront(s: string, m: string) returns (w: string)
    requires |m| <= |s| && s[|s| - |m|..] == m && AllWhite(s[..|s| - |m|])
    ensures s == w + m && AllWhite(w)
  {
    w := s[..|s| - |m|];
  }

  lemma {:induction false} CutBack(m: string, t: string) returns (v: string)
    requires t <= m && AllWhite(m[|t|..])
    ensures m == t + v && AllWhite(v)
  {
    v := m[|t|..];
  }

  /** A trimmed string is the middle of the original, between white space. */
  lemma {:induction false} TrimSplits(s: string) returns (w: string, v: string)
    ensures s == w + Trim(s) + v && AllWhite(w) && AllWhite(v)
  {
    var m := TrimStart(s);
    TrimStartSplits(s);
    TrimEndSplits(m);
    w := CutFront(s, m);
    v := CutBack(m, TrimEnd(m));
    Assoc(w, TrimEnd(m), v);
  }

  lemma {:induction false} StripKeepsTrim(line: string)
    ensures Trim(StripReturn(line)) == Trim(line)
  {
    if line != "" && line[|line| - 1] == '\r' {
      TrimAppend(line[..|line| - 1], "\r");
      assert line[..|line| - 1] + "\r" == line;
    }
  }

  function TrimSlashes(s: string): (r: string)
    ensures r <= s && (r == "" || r[|r| - 1] != '/')
  {
    if s != "" && s[|s| - 1] == '/' then TrimSlashes(s[..|s| - 1]) else s
  }

  // ---- `key = value` lines -----------------------------------------------------------------------

  predicate HasKey(line: string) {
    '=' in line
  }

  /** The text before the first `=`, trimmed. */
  function KeyOf(line: string): string {
    Trim(line[..Find(line, '=')])
  }

  /** The text behind the first `=`, trimmed. */
  function ValueOf(line: string): string
    requires HasKey(line)
  {
    var k := Find(line, '=');
    Trim(line[k + 1..])
  }

  lemma {:induction false} KeyFound(line: string)
    ensures HasKey(line) <==> Find(line, '=') < |line|
  {
  }

  /** Trimming a line changes neither its key nor its value. */
  lemma {:induction false} TrimKeepsEntry(line: string)
    ensures HasKey(Trim(line)) <==> HasKey(line)
    ensures HasKey(line) ==> KeyOf(Trim(line)) == KeyOf(line) && ValueOf(Trim(line)) == ValueOf(line)
  {
    var w, v := TrimSplits(line);
    Padding(w, Trim(line), v);
  }

  lemma {:induction false} PaddedFind(w: string, m: string, v: string, c: char)
    requires c !in w && c in m
    ensures Find(w + m + v, c) == |w| + Find(m, c)
    ensures (w + m + v)[..|w| + Find(m, c)] == w + m[..Find(m, c)]
    ensures (w + m + v)[|w| + Find(m, c) + 1..] == m[Find(m, c) + 1..] + v
  {
    var k, line := Find(m, c), w + m + v;
    assert line[|w| + k] == m[k];
    FindIs(line, c, |w| + k);
  }

  lemma {:induction false} Padding(w: string, m: string, v: string)
    requires AllWhite(w) && AllWhite(v)
    ensures HasKey(w + m + v) <==> HasKey(m)
    ensures HasKey(m) ==> KeyOf(w + m + v) == KeyOf(m) && ValueOf(w + m + v) == ValueOf(m)
  {
    assert '=' !in w && '=' !in v;
    KeyFound(m);
    if HasKey(m) {
      var k := Find(m, '=');
      PaddedFind(w, m, v, '=');
      TrimPrepend(w, m[..k]);
      TrimAppend(m[k + 1..], v);
    }
  }

  /** A name that can stand before `=`. */
  predicate Name(name: string) {
    name != "" && '=' !in name && '\n' !in name && name[0] != '#' && Trim(name) == name
  }

  function Entry(name: string, value: string): string {
    name + " = " + value
  }

  lemma {:induction false} EntryReads(name: string, value: string)
    requires Name(name)
    ensures HasKey(Entry(name, value)) && KeyOf(Entry(name, value)) == name && ValueOf(Entry(name, value)) == Trim(value)
  {
    var line := Entry(name, value);
    assert line == name + " " + ("=" + (" " + value));
    FindIs(line, '=', |name| + 1);
    assert line[..|name| + 1] == name + " " && line[|name| + 2..] == " " + value;
    TrimAppend(name, " ");
    TrimPrepend(" ", value);
  }

  lemma {:induction false} NameStarts(name: string)
    requires name != "" && Trim(name) == name
    ensures !White(name[0])
  {
    TrimStartSplits(name[1..]);
    assert Trim(name) <= TrimStart(name);
  }

  lemma {:induction false} EntryStarts(name: string, value: string)
    requires Name(name)
    ensures Trim(Entry(name, value)) != "" && Trim(Entry(name, value))[0] != '#'
  {
    var line := Entry(name, value);
    assert line[0] == name[0];
    NameStarts(name);
    assert TrimStart(line) == line;
    TrimEndKeeps(line);
  }

  predicate Plain(s: string) {
    s != "" && forall i :: 0 <= i < |s| ==> 'a' <= s[i] <= 'z'
  }

  lemma {:induction false} PlainIsName(s: string)
    requires Plain(s)
    ensures Name(s) && Trim(s) == s
  {
    assert !White(s[0]) && !White(s[|s| - 1]);
    assert TrimStart(s) == s && TrimEnd(s) == s;
  }

  lemma {:induction false} SameRest(head: string, a: string, b: string)
    requires head + a == head + b
    ensures a == b
  {
    assert (head + a)[|head|..] == a && (head + b)[|head|..] == b;
  }

  lemma {:induction false} SameTail(a: string, b: string, tail: string)
    ensures a + tail == b + tail <==> a == b
  {
    if a + tail == b + tail {
      assert (a + tail)[..|a + tail| - |tail|] == a && (b + tail)[..|b + tail| - |tail|] == b;
    }
  }
}

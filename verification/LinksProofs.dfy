/** Repointing touches nothing but the links that leave the book, lands where they pointed, and knows
    when it has been done already. */
module LinksProofs {
  import opened Basics
  import opened Sequences
  import opened Text
  import opened Links

  // ---- a page as text and links ------------------------------------------------------------------

  /** Text without a link, or text up to and including an attribute's opening quote, the link, and the
      page from its closing quote on. */
  datatype Page = Plain(text: string) | Anchor(head: string, body: string, rest: Page)

  function Parse(html: string, mark: string): Page
    requires mark != ""
    decreases |html|
  {
    var at := Seek(html, mark);
    if at == |html| then Plain(html)
    else
      var rest := html[at + |mark|..];
      var end := Find(rest, '"');
      if end == |rest| then Plain(html)
      else Anchor(html[..at + |mark|], rest[..end], Parse(rest[end..], mark))
  }

  function Glue(p: Page): string {
    match p
    case Plain(t) => t
    case Anchor(head, body, rest) => head + (body + Glue(rest))
  }

  function MapLinks(p: Page, depth: nat, base: string): Page {
    match p
    case Plain(t) => p
    case Anchor(head, body, rest) => Anchor(head, Moved(body, depth, base), MapLinks(rest, depth, base))
  }

  /** Parsing loses nothing. */
  lemma {:induction false} GlueParse(html: string, mark: string)
    requires mark != ""
    ensures Glue(Parse(html, mark)) == html
    decreases |html|
  {
    var at := Seek(html, mark);
    if at < |html| {
      var n := at + |mark|;
      var end := Find(html[n..], '"');
      if end < |html[n..]| {
        GlueParse(html[n..][end..], mark);
        InThree(html, n, n + end);
      }
    }
  }

  // ---- pieces of paths ------------------------------------------------------------------------------

  lemma {:induction false} JoinFirst(p: string, s: seq<string>, c: char)
    requires s != []
    ensures JoinWith([p] + s, c) == p + [c] + JoinWith(s, c)
  {
    assert ([p] + s)[1..] == s;
  }

  lemma {:induction false} JoinSplit(t: string, c: char)
    ensures JoinWith(SplitOn(t, c), c) == t
  {
    var k := Find(t, c);
    if k < |t| {
      JoinSplit(t[k + 1..], c);
      JoinedAt(t, k, SplitOn(t[k + 1..], c));
    }
  }

  lemma {:induction false} JoinedAt(t: string, k: nat, s: seq<string>)
    requires k < |t| && s != [] && JoinWith(s, t[k]) == t[k + 1..]
    ensures JoinWith([t[..k]] + s, t[k]) == t
  {
    JoinFirst(t[..k], s, t[k]);
    SplitAt(t, k);
  }

  lemma {:induction false} PiecesPlain(t: string, c: char)
    ensures forall i :: 0 <= i < |SplitOn(t, c)| ==> c !in SplitOn(t, c)[i]
  {
    var k := Find(t, c);
    if k < |t| {
      PiecesPlain(t[k + 1..], c);
    }
  }

  lemma {:induction false} SplitJoin(s: seq<string>, c: char)
    requires s != [] && forall i :: 0 <= i < |s| ==> c !in s[i]
    ensures SplitOn(JoinWith(s, c), c) == s
  {
    if |s| == 1 {
      FindIs(s[0], c, |s[0]|);
    } else {
      var rest := JoinWith(s[1..], c);
      SplitJoin(s[1..], c);
      assert JoinWith(s, c) == s[0] + ([c] + rest);
      FindIs(JoinWith(s, c), c, |s[0]|);
      assert JoinWith(s, c)[..|s[0]|] == s[0] && JoinWith(s, c)[|s[0]| + 1..] == rest;
    }
  }

  /** Leaving out the first pieces leaves the end of the text. */
  lemma {:induction false} JoinSuffix(s: seq<string>, c: char, k: nat)
    requires k <= |s|
    ensures |JoinWith(s[k..], c)| <= |JoinWith(s, c)|
    ensures JoinWith(s, c)[|JoinWith(s, c)| - |JoinWith(s[k..], c)|..] == JoinWith(s[k..], c)
  {
    if k == 0 {
      assert s[0..] == s;
    } else if k < |s| {
      JoinSuffix(s[1..], c, k - 1);
      assert s[1..][k - 1..] == s[k..];
      var a, b, e := s[0] + [c], JoinWith(s[1..], c), JoinWith(s[k..], c);
      assert JoinWith(s, c) == a + b;
      assert (a + b)[|a + b| - |e|..] == b[|b| - |e|..];
    } else {
      assert s[k..] == [];
    }
  }

  function Target(href: string): string {
    var segs := SplitOn(href[..PathEnd(href)], '/');
    JoinWith(segs[Climbs(segs)..], '/')
  }

  /** The target is the end of the path. */
  lemma {:induction false} TargetIsSuffix(href: string)
    ensures var path := href[..PathEnd(href)];
      |Target(href)| <= |path| && path[|path| - |Target(href)|..] == Target(href)
  {
    var path := href[..PathEnd(href)];
    var segs := SplitOn(path, '/');
    JoinSplit(path, '/');
    JoinSuffix(segs, '/', Climbs(segs));
  }

  lemma {:induction false} MovedHasNoQuote(href: string, depth: nat, base: string)
    requires '"' !in href && '"' !in base
    ensures '"' !in Moved(href, depth, base)
  {
    TargetIsSuffix(href);
    var path, tail, target := href[..PathEnd(href)], href[PathEnd(href)..], Target(href);
    assert forall i :: 0 <= i < |target| ==> target[i] == path[|path| - |target| + i];
    assert '"' !in TrimSlashes(base);
  }

  // ---- the structure stays ------------------------------------------------------------------------------

  lemma {:induction false} SeekIs(t: string, mark: string, k: nat)
    requires mark != "" && k <= |t| && (forall j :: 0 <= j < k ==> !(mark <= t[j..]))
    requires k < |t| ==> mark <= t[k..]
    ensures Seek(t, mark) == k
  {
    var s := Seek(t, mark);
    assert s < |t| ==> mark <= t[s..];
    assert k < |t| ==> mark <= t[k..];
  }

  lemma {:induction false} SameThere(t: string, u: string, mark: string, j: nat, n: nat)
    requires n <= |t| && n <= |u| && t[..n] == u[..n] && j + |mark| <= n
    ensures mark <= t[j..] <==> mark <= u[j..]
  {
    var m := |mark|;
    assert t[j..][..m] == t[..n][j..][..m];
    assert u[j..][..m] == u[..n][j..][..m];
  }

  /** The first mark is found where it was, whatever follows it. */
  lemma {:induction false} SeekStays(t: string, mark: string, x: string)
    requires mark != "" && Seek(t, mark) < |t|
    ensures Seek(t[..Seek(t, mark) + |mark|] + x, mark) == Seek(t, mark)
  {
    var k := Seek(t, mark);
    var n := k + |mark|;
    var u := t[..n] + x;
    assert t[..n] == u[..n];
    SameThere(t, u, mark, k, n);
    forall j | 0 <= j < k
      ensures !(mark <= u[j..])
    {
      SameThere(t, u, mark, j, n);
    }
    SeekIs(u, mark, k);
  }

  lemma {:induction false} QuoteStaysFirst(t: string, mark: string, depth: nat, base: string)
    requires mark != "" && t != "" && t[0] == '"'
    ensures Repointed(t, mark, depth, base) != "" && Repointed(t, mark, depth, base)[0] == '"'
  {
    if Seek(t, mark) < |t| {
      FirstLink(t, mark, depth, base);
    }
  }

  /** What stands before the first quote, and what from there on. */
  ghost predicate Quoted(rest: string, body: string, after: string) {
    var end := Find(rest, '"');
    end < |rest| && body == rest[..end] && after == rest[end..]
  }

  /** The first link of a page, and the page from its closing quote on. */
  ghost predicate FirstIs(html: string, mark: string, body: string, after: string) {
    Seek(html, mark) < |html| && Quoted(html[Seek(html, mark) + |mark|..], body, after)
  }

  ghost predicate HasNone(html: string, mark: string) {
    Seek(html, mark) < |html| ==> var rest := html[Seek(html, mark) + |mark|..]; Find(rest, '"') == |rest|
  }

  lemma {:induction false} QuoteOrNone(rest: string) returns (found: bool, body: string, after: string)
    ensures if found then Quoted(rest, body, after) && |after| <= |rest| else Find(rest, '"') == |rest|
  {
    var end := Find(rest, '"');
    found, body, after := end < |rest|, rest[..end], rest[end..];
  }

  lemma {:induction false} FirstOrNone(html: string, mark: string) returns (found: bool, body: string, after: string)
    requires mark != ""
    ensures if found then FirstIs(html, mark, body, after) && |after| < |html| else HasNone(html, mark)
  {
    var at := Seek(html, mark);
    found, body, after := false, "", "";
    if at < |html| {
      found, body, after := QuoteOrNone(html[at + |mark|..]);
    }
  }

  lemma {:induction false} OneLinkChanges(html: string, mark: string, depth: nat, base: string, body: string, after: string)
    requires mark != "" && '"' !in base && FirstIs(html, mark, body, after)
    ensures Parse(Repointed(html, mark, depth, base), mark) ==
            Anchor(html[..Seek(html, mark) + |mark|], Moved(body, depth, base), Parse(Repointed(after, mark, depth, base), mark))
  {
    FirstLink(html, mark, depth, base);
    MovedHasNoQuote(body, depth, base);
    QuoteStaysFirst(after, mark, depth, base);
    ParseAnchor(html, mark, Moved(body, depth, base), Repointed(after, mark, depth, base));
  }

  lemma {:induction false} FirstAnchor(html: string, mark: string, body: string, after: string)
    requires mark != "" && FirstIs(html, mark, body, after)
    ensures Parse(html, mark) == Anchor(html[..Seek(html, mark) + |mark|], body, Parse(after, mark))
  {
  }

  lemma {:induction false} NoAnchor(html: string, mark: string, depth: nat, base: string)
    requires mark != "" && HasNone(html, mark)
    ensures Parse(html, mark) == Plain(html) && Repointed(html, mark, depth, base) == html
  {
    if Seek(html, mark) < |html| {
      FirstLink(html, mark, depth, base);
    }
  }

  /** A page whose rest keeps its text around its links keeps it as a whole. */
  lemma {:induction false} OneMoreAnchor(html: string, mark: string, depth: nat, base: string, body: string, after: string)
    requires mark != "" && '"' !in base && FirstIs(html, mark, body, after)
    requires Parse(Repointed(after, mark, depth, base), mark) == MapLinks(Parse(after, mark), depth, base)
    ensures Parse(Repointed(html, mark, depth, base), mark) == MapLinks(Parse(html, mark), depth, base)
  {
    OneLinkChanges(html, mark, depth, base, body, after);
    FirstAnchor(html, mark, body, after);
  }

  /** A repointed page parses into the same text around the same number of links, each of them moved:
      every character outside a link is where it was. */
  lemma {:induction false} OnlyLinksChange(html: string, mark: string, depth: nat, base: string)
    requires mark != "" && '"' !in base
    ensures Parse(Repointed(html, mark, depth, base), mark) == MapLinks(Parse(html, mark), depth, base)
    decreases |html|
  {
    var found, body, after := FirstOrNone(html, mark);
    if found {
      OnlyLinksChange(after, mark, depth, base);
      OneMoreAnchor(html, mark, depth, base, body, after);
    } else {
      NoAnchor(html, mark, depth, base);
    }
  }

  lemma {:induction false} QuoteCloses(body: string, after: string)
    requires '"' !in body && after != "" && after[0] == '"'
    ensures Find(body + after, '"') == |body| && (body + after)[..|body|] == body && (body + after)[|body|..] == after
  {
    FindIs(body + after, '"', |body|);
  }

  lemma {:induction false} ParsePage(head: string, body: string, after: string, mark: string)
    requires mark != "" && |head| >= |mark| && Seek(head + (body + after), mark) == |head| - |mark|
    requires '"' !in body && after != "" && after[0] == '"'
    ensures Parse(head + (body + after), mark) == Anchor(head, body, Parse(after, mark))
  {
    var page := head + (body + after);
    assert page[..|head|] == head && page[|head|..] == body + after;
    QuoteCloses(body, after);
  }

  lemma {:induction false} HeadLength(html: string, mark: string)
    requires mark != "" && Seek(html, mark) < |html|
    ensures |html[..Seek(html, mark) + |mark|]| == Seek(html, mark) + |mark|
  {
  }

  lemma {:induction false} ParseAnchor(html: string, mark: string, body: string, after: string)
    requires mark != "" && Seek(html, mark) < |html| && '"' !in body && after != "" && after[0] == '"'
    ensures var head := html[..Seek(html, mark) + |mark|];
      Parse(head + (body + after), mark) == Anchor(head, body, Parse(after, mark))
  {
    SeekStays(html, mark, body + after);
    HeadLength(html, mark);
    ParsePage(html[..Seek(html, mark) + |mark|], body, after, mark);
  }

  /** A repointed page, put together from its parts. */
  lemma {:induction false} RepointedIsGlued(html: string, mark: string, depth: nat, base: string)
    requires mark != ""
    ensures Repointed(html, mark, depth, base) == Glue(MapLinks(Parse(html, mark), depth, base))
    decreases |html|
  {
    if Seek(html, mark) < |html| {
      FirstLink(html, mark, depth, base);
      var rest := html[Seek(html, mark) + |mark|..];
      if Find(rest, '"') < |rest| {
        RepointedIsGlued(rest[Find(rest, '"')..], mark, depth, base);
      }
    }
  }

  // ---- once is enough ------------------------------------------------------------------------------------------

  /** Repointing recognises its own links: the base has no fragment or query, or what it has in front of
      one is not itself a link to repoint. */
  predicate Steady(depth: nat, base: string) {
    var b := TrimSlashes(base);
    PathEnd(b) < |b| ==> RepointOne(b, depth, base).None?
  }

  lemma {:induction false} PathEndIs(t: string, k: nat)
    requires k <= |t| && (forall i :: 0 <= i < k ==> t[i] != '#' && t[i] != '?') && (k < |t| ==> t[k] == '#' || t[k] == '?')
    ensures PathEnd(t) == k
  {
    var p := PathEnd(t);
    assert (p < |t| ==> t[p] == '#' || t[p] == '?') && (k < |t| ==> t[k] == '#' || t[k] == '?');
  }

  lemma {:induction false} TargetHasNoMarks(href: string)
    ensures '#' !in Target(href) && '?' !in Target(href)
  {
    var path, target := href[..PathEnd(href)], Target(href);
    TargetIsSuffix(href);
    assert forall i :: 0 <= i < |target| ==> target[i] == path[|path| - |target| + i];
  }

  /** A link whose path does not end in `.html` stays. */
  lemma {:induction false} OtherPathsStay(href: string, depth: nat, base: string)
    requires var path := href[..PathEnd(href)]; path != "" && path[|path| - 1] != 'l'
    ensures RepointOne(href, depth, base).None?
  {
    var path, target := href[..PathEnd(href)], Target(href);
    TargetIsSuffix(href);
    if target != "" {
      assert path[|path| - |target|..][|target| - 1] == path[|path| - 1];
      assert target[|target| - 1] != 'l';
      assert ".html"[4] == 'l';
    }
  }

  lemma {:induction false} PathDecides(a: string, b: string, depth: nat, base: string)
    requires a[..PathEnd(a)] == b[..PathEnd(b)]
    ensures RepointOne(a, depth, base).Some? <==> RepointOne(b, depth, base).Some?
  {
  }

  lemma {:induction false} MovedOnce(href: string, depth: nat, base: string)
    requires Steady(depth, base)
    ensures Moved(Moved(href, depth, base), depth, base) == Moved(href, depth, base)
  {
    if RepointOne(href, depth, base).Some? {
      var b, t, tail := TrimSlashes(base), Target(href)[..|Target(href)| - 5], href[PathEnd(href)..];
      var m := b + "/" + t + ".md" + tail;
      assert Moved(href, depth, base) == m;
      if PathEnd(b) < |b| {
        BaseDecides(b, m, PathEnd(b));
        PathDecides(m, b, depth, base);
      } else {
        TargetHasNoMarks(href);
        MovedPath(b, t, tail);
        OtherPathsStay(m, depth, base);
      }
    }
  }

  lemma {:induction false} BaseDecides(b: string, m: string, k: nat)
    requires b <= m && k == PathEnd(b) < |b|
    ensures m[..PathEnd(m)] == b[..PathEnd(b)]
  {
    assert forall i :: 0 <= i < |b| ==> m[i] == b[i];
    PathEndIs(m, k);
  }

  lemma {:induction false} MovedPath(b: string, t: string, tail: string)
    requires '#' !in b && '?' !in b && '#' !in t && '?' !in t && (tail == "" || tail[0] == '#' || tail[0] == '?')
    ensures var m := b + "/" + t + ".md" + tail;
      m[..PathEnd(m)] == b + "/" + t + ".md"
  {
    var p := b + "/" + t + ".md";
    PathEndIs(p + tail, |p|);
  }

  lemma {:induction false} MapTwice(p: Page, depth: nat, base: string)
    requires Steady(depth, base)
    ensures MapLinks(MapLinks(p, depth, base), depth, base) == MapLinks(p, depth, base)
  {
    match p {
      case Plain(t) =>
      case Anchor(head, body, rest) =>
        MovedOnce(body, depth, base);
        MapTwice(rest, depth, base);
    }
  }

  lemma {:induction false} RepointedOnce(html: string, mark: string, depth: nat, base: string)
    requires mark != "" && '"' !in base && Steady(depth, base)
    ensures Repointed(Repointed(html, mark, depth, base), mark, depth, base) == Repointed(html, mark, depth, base)
  {
    var once := Repointed(html, mark, depth, base);
    OnlyLinksChange(html, mark, depth, base);
    MapTwice(Parse(html, mark), depth, base);
    RepointedIsGlued(html, mark, depth, base);
    RepointedIsGlued(once, mark, depth, base);
  }

  function Up(n: nat): seq<string> {
    if n == 0 then [] else [".."] + Up(n - 1)
  }

  lemma {:induction false} OneMoreUp(n: nat, up: seq<string>, segs: seq<string>)
    requires n >= 1 && |up| == n - 1 && Climbs(up + segs) == n - 1 + Climbs(segs)
    ensures var all := [".."] + up + segs; Climbs(all) == n + Climbs(segs) && all[n..] == segs
  {
    var all := [".."] + up + segs;
    assert all[0] == ".." && all[1..] == up + segs;
  }

  lemma {:induction false} UpClimbs(n: nat, segs: seq<string>)
    ensures Climbs(Up(n) + segs) == n + Climbs(segs) && (Up(n) + segs)[n..] == segs && |Up(n)| == n
    ensures forall s :: s in Up(n) ==> s == ".."
  {
    if n == 0 {
      assert Up(n) + segs == segs;
    } else {
      UpClimbs(n - 1, segs);
      OneMoreUp(n, Up(n - 1), segs);
    }
  }

  /** The plainest link that leaves the book from `depth`. */
  function Leaving(depth: nat): string {
    JoinWith(Up(depth + 1) + ["a.html"], '/')
  }

  lemma {:induction false} JoinPlain(s: seq<string>, c: char, x: char)
    requires x != c && forall i :: 0 <= i < |s| ==> x !in s[i]
    ensures x !in JoinWith(s, c)
  {
    if |s| > 1 {
      JoinPlain(s[1..], c, x);
    }
  }

  lemma {:induction false} LeavingPlain(depth: nat)
    ensures var segs := Up(depth + 1) + ["a.html"];
      var href := Leaving(depth);
      && '"' !in href && PathEnd(href) == |href|
      && SplitOn(href, '/') == segs && Climbs(segs) == depth + 1 && segs[depth + 1..] == ["a.html"]
  {
    var segs := Up(depth + 1) + ["a.html"];
    var href := Leaving(depth);
    UpClimbs(depth + 1, ["a.html"]);
    assert Climbs(["a.html"]) == 0;
    forall i | 0 <= i < |segs|
      ensures '/' !in segs[i] && '#' !in segs[i] && '?' !in segs[i] && '"' !in segs[i]
    {
      assert segs[i] in Up(depth + 1) || segs[i] == "a.html";
    }
    JoinPlain(segs, '/', '#');
    JoinPlain(segs, '/', '?');
    JoinPlain(segs, '/', '"');
    PathEndIs(href, |href|);
    SplitJoin(segs, '/');
  }

  lemma {:induction false} LeavingMoves(depth: nat, base: string)
    ensures RepointOne(Leaving(depth), depth, base) == Some(TrimSlashes(base) + "/a.md")
    ensures '"' !in Leaving(depth)
  {
    var href := Leaving(depth);
    LeavingPlain(depth);
    assert href[..|href|] == href && href[|href|..] == "";
    LeavingTarget(TrimSlashes(base));
  }

  lemma {:induction false} LeavingTarget(b: string)
    ensures Ends("a.html", ".html") && "a.html"[..1] == "a" && b + "/" + "a" + ".md" + "" == b + "/a.md"
  {
    assert "a.html"[1..] == ".html";
    assert "/" + "a" + ".md" == "/a.md";
  }

  lemma {:induction false} OneAnchor(mark: string, body: string, depth: nat, base: string)
    requires |mark| >= 2 && '"' !in body
    ensures Repointed(mark + (body + "\""), mark, depth, base) == mark + (Moved(body, depth, base) + "\"")
  {
    var html := mark + (body + "\"");
    assert html[0..] == html;
    SeekIs(html, mark, 0);
    assert html[..|mark|] == mark && html[|mark|..] == body + "\"";
    QuoteCloses(body, "\"");
    assert forall j :: 0 <= j < 1 ==> !(mark <= "\""[j..]);
    SeekIs("\"", mark, 1);
  }

  lemma {:induction false} UnsteadyPage(mark: string, depth: nat, base: string) returns (html: string)
    requires |mark| >= 2 && '"' !in base && !Steady(depth, base)
    ensures Repointed(Repointed(html, mark, depth, base), mark, depth, base) != Repointed(html, mark, depth, base)
  {
    html := mark + (Leaving(depth) + "\"");
    var m := TrimSlashes(base) + "/a.md";
    LeavingMoves(depth, base);
    MovedHasNoQuote(Leaving(depth), depth, base);
    OneAnchor(mark, Leaving(depth), depth, base);
    OneAnchor(mark, m, depth, base);
    UnsteadyGrows(depth, base);
    assert |mark + (Moved(m, depth, base) + "\"")| > |mark + (m + "\"")|;
  }

  /** Doing it twice is doing it once, on every page, exactly when the base is steady. */
  lemma {:induction false} IdempotentExactly(mark: string, depth: nat, base: string)
    requires |mark| >= 2 && '"' !in base
    ensures (forall html :: Repointed(Repointed(html, mark, depth, base), mark, depth, base) == Repointed(html, mark, depth, base))
            <==> Steady(depth, base)
  {
    if Steady(depth, base) {
      forall html: string
        ensures Repointed(Repointed(html, mark, depth, base), mark, depth, base) == Repointed(html, mark, depth, base)
      {
        RepointedOnce(html, mark, depth, base);
      }
    } else {
      var html := UnsteadyPage(mark, depth, base);
    }
  }

  lemma {:induction false} UnsteadyGrows(depth: nat, base: string)
    requires !Steady(depth, base)
    ensures |Moved(TrimSlashes(base) + "/a.md", depth, base)| > |TrimSlashes(base) + "/a.md"|
  {
    var b := TrimSlashes(base);
    var m := b + "/a.md";
    BaseDecides(b, m, PathEnd(b));
    PathDecides(m, b, depth, base);
    assert PathEnd(m) == PathEnd(b) < |b|;
    assert |m[PathEnd(m)..]| > |"/a.md"|;
  }

  // ---- where links lead --------------------------------------------------------------------------------------------

  /** The file a relative path names from a directory; none when it climbs past the top. */
  function Follow(dir: seq<string>, segs: seq<string>): Option<seq<string>>
    decreases |segs|
  {
    if segs == [] then Some(dir)
    else if segs[0] == ".." then (if dir == [] then None else Follow(dir[..|dir| - 1], segs[1..]))
    else if segs[0] == "." || segs[0] == "" then Follow(dir, segs[1..])
    else Follow(dir + [segs[0]], segs[1..])
  }

  lemma {:induction false} FollowUp(dir: seq<string>, segs: seq<string>)
    requires Climbs(segs) >= |dir|
    ensures Follow(dir, segs) == Follow([], segs[|dir|..])
  {
    if dir == [] {
      assert segs[0..] == segs;
    } else {
      FollowUp(dir[..|dir| - 1], segs[1..]);
      assert segs[1..][|dir| - 1..] == segs[|dir|..];
    }
  }

  /** A page `dirs` deep in the book: a link is repointed exactly when it climbs to the checkout, one
      step past the book's root, and names a `.html` there; it then names, under the base, the file
      the original resolved to, as markdown, with its fragment or query. */
  lemma {:induction false} RepointedLandsThere(href: string, book: string, dirs: seq<string>, base: string)
    ensures var path, tail := href[..PathEnd(href)], href[PathEnd(href)..];
      var segs, target := SplitOn(path, '/'), Target(href);
      && (RepointOne(href, |dirs|, base).Some? <==> Climbs(segs) == |dirs| + 1 && Ends(target, ".html"))
      && (RepointOne(href, |dirs|, base).Some? ==>
            && Follow([book] + dirs, segs) == Follow([], SplitOn(target, '/'))
            && RepointOne(href, |dirs|, base).value == TrimSlashes(base) + "/" + target[..|target| - 5] + ".md" + tail)
  {
    var segs, target := SplitOn(href[..PathEnd(href)], '/'), Target(href);
    if RepointOne(href, |dirs|, base).Some? {
      FollowUp([book] + dirs, segs);
      PiecesPlain(href[..PathEnd(href)], '/');
      assert target != "";
      assert segs[|dirs| + 1..] != [];
      SplitJoin(segs[|dirs| + 1..], '/');
    }
  }
}

/** Repointing the links that leave the book (crates/choir-cli/src/docs.rs). */
module Links {
  import opened Basics
  import opened Sequences
  import opened Text

  /** The attribute that is looked for, its opening quote included. */
  const HREF := "href=\""

  /** Where `mark` first occurs, or the length. */
  function Seek(t: string, mark: string): (k: nat)
    ensures k <= |t|
    ensures k < |t| ==> mark <= t[k..]
    ensures forall j :: 0 <= j < k ==> !(mark <= t[j..])
  {
    if t == "" || mark <= t then 0
    else
      var k := Seek(t[1..], mark);
      assert forall j :: 0 < j <= k ==> t[j..] == t[1..][j - 1..];
      k + 1
  }

  predicate Ends(s: string, tail: string) {
    |s| >= |tail| && s[|s| - |tail|..] == tail
  }

  /** Where the path of a link stops and its fragment or query begins. */
  function PathEnd(href: string): (k: nat)
    ensures k <= |href| && (forall i :: 0 <= i < k ==> href[i] != '#' && href[i] != '?')
    ensures k < |href| ==> href[k] == '#' || href[k] == '?'
  {
    if href == "" || href[0] == '#' || href[0] == '?' then 0 else 1 + PathEnd(href[1..])
  }

  /** How many leading segments are `..`. */
  function Climbs(segs: seq<string>): (n: nat)
    ensures n <= |segs|
  {
    if segs != [] && segs[0] == ".." then 1 + Climbs(segs[1..]) else 0
  }

  /** One link, or nothing when it stays where it is. */
  function RepointOne(href: string, depth: nat, base: string): Option<string> {
    var path, tail := href[..PathEnd(href)], href[PathEnd(href)..];
    var segs := SplitOn(path, '/');
    var climbs := Climbs(segs);
    if climbs == 0 || climbs <= depth || climbs > depth + 1 then None
    else
      var target := JoinWith(segs[climbs..], '/');
      if !Ends(target, ".html") then None
      else Some(TrimSlashes(base) + "/" + target[..|target| - 5] + ".md" + tail)
  }

  function Moved(href: string, depth: nat, base: string): string {
    var m := RepointOne(href, depth, base);
    if m.Some? then m.value else href
  }

  function Repointed(html: string, mark: string, depth: nat, base: string): string
    requires mark != ""
    decreases |html|
  {
    var at := Seek(html, mark);
    if at == |html| then html
    else
      var rest := html[at + |mark|..];
      var end := Find(rest, '"');
      if end == |rest| then html
      else html[..at + |mark|] + (Moved(rest[..end], depth, base) + Repointed(rest[end..], mark, depth, base))
  }

  method RepointEscapingLinks(html: string, depth: nat, base: string) returns (out: string)
    ensures out == Repointed(html, HREF, depth, base)
  {
    out := RepointLoop(html, HREF, depth, base);
  }

  /** What a page looks like around its first link. */
  lemma {:induction false} FirstLink(html: string, mark: string, depth: nat, base: string)
    requires mark != "" && Seek(html, mark) < |html|
    ensures var head := html[..Seek(html, mark) + |mark|];
      var rest := html[Seek(html, mark) + |mark|..];
      var end := Find(rest, '"');
      && html == head + rest
      && (end == |rest| ==> Repointed(html, mark, depth, base) == html)
      && (end < |rest| ==> Repointed(html, mark, depth, base) == head + (Moved(rest[..end], depth, base) + Repointed(rest[end..], mark, depth, base)))
  {
  }

  method Body(href: string, depth: nat, base: string) returns (body: string)
    ensures body == Moved(href, depth, base)
  {
    var moved := RepointOne(href, depth, base);
    body := href;
    if moved.Some? {
      body := moved.value;
    }
  }

  lemma {:induction false} Push(out: string, head: string, body: string, rest: string, whole: string, all: string)
    requires whole == head + (body + rest) && out + whole == all
    ensures out + head + body + rest == all
  {
  }

  method RepointLoop(html: string, mark: string, depth: nat, base: string) returns (out: string)
    requires mark != ""
    ensures out == Repointed(html, mark, depth, base)
  {
    out := "";
    var rest := html;
    ghost var all := Repointed(html, mark, depth, base);
    ghost var todo := all;
    while Seek(rest, mark) < |rest|
      invariant todo == Repointed(rest, mark, depth, base) && out + todo == all
      decreases |rest|
    {
      var at := Seek(rest, mark);
      FirstLink(rest, mark, depth, base);
      var head := rest[..at + |mark|];
      rest := rest[at + |mark|..];
      var end := Find(rest, '"');
      if end == |rest| {
        Assoc(out, head, rest);
        return out + head + rest;
      }
      var body := Body(rest[..end], depth, base);
      rest := rest[end..];
      ghost var whole := todo;
      todo := Repointed(rest, mark, depth, base);
      Push(out, head, body, todo, whole, all);
      out := out + head;
      out := out + body;
    }
    out := out + rest;
  }
}

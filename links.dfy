/** Wiki-link helpers of utils/fileHelpers.ts: `findNodeByTitle` and
    `findBacklinks`, with the regular expression the latter builds. */
module Links {
  import opened Wrappers
  import opened Seqs
  import opened Strs
  import opened Types
  import opened Tree

  function TitleIs(title: string): Node -> bool {
    (n: Node) => Lower(n.title) == Lower(title)
  }

  /** `findNodeByTitle`: the first node in pre-order whose title equals
      `title` ignoring case. */
  function FindNodeByTitle(ns: seq<Node>, title: string): (r: Option<Node>)
    ensures r.Some? ==> r.value in Flatten(ns) && Lower(r.value.title) == Lower(title)
    ensures r.None? <==> forall i :: 0 <= i < |Flatten(ns)| ==> Lower(Flatten(ns)[i].title) != Lower(title)
  {
    First(Flatten(ns), TitleIs(title))
  }

  /** The lookup ignores the case of the title asked for. */
  lemma FindNodeByTitleIgnoresCase(ns: seq<Node>, title: string)
    ensures FindNodeByTitle(ns, Lower(title)) == FindNodeByTitle(ns, title)
  {
    LowerIdempotent(title);
  }

  /** The characters `[.*+?^${}()|[\]\\]` that the escape prefixes with a
      backslash. */
  predicate IsSpecial(c: char) {
    c in ".*+?^${}()|[]\\"
  }

  /** `title.replace(/[.*+?^${}()|[\]\\]/g, '\\$&')`. */
  function Escape(t: string): (r: string)
    ensures |r| >= |t|
  {
    if t == [] then []
    else
      var head := if IsSpecial(t[0]) then ['\\', t[0]] else [t[0]];
      head + Escape(t[1..])
  }

  lemma {:induction false} EscapeAppend(a: string, b: string)
    ensures Escape(a + b) == Escape(a) + Escape(b)
  {
    if a != [] {
      assert (a + b)[0] == a[0] && (a + b)[1..] == a[1..] + b;
      EscapeAppend(a[1..], b);
      var head := if IsSpecial(a[0]) then ['\\', a[0]] else [a[0]];
      assert Escape(a + b) == head + Escape(a[1..] + b);
      assert Escape(a) == head + Escape(a[1..]);
    } else {
      assert a + b == b;
    }
  }

  /** The literal text a regular-expression source made only of plain
      characters and escaped special characters stands for; None when the
      source holds anything else (an unescaped metacharacter, an escape of
      an ordinary character, a trailing backslash). */
  function Unescape(p: string): Option<string>
  {
    if p == [] then Some([])
    else if p[0] == '\\' then
      if |p| >= 2 && IsSpecial(p[1]) then
        match Unescape(p[2..])
        case None => None
        case Some(rest) => Some([p[1]] + rest)
      else None
    else if IsSpecial(p[0]) then None
    else
      match Unescape(p[1..])
      case None => None
      case Some(rest) => Some([p[0]] + rest)
  }

  /** Escaping turns every title into a pattern that matches that title
      literally. */
  lemma {:induction false} UnescapeEscape(t: string)
    ensures Unescape(Escape(t)) == Some(t)
  {
    if t != [] {
      UnescapeEscape(t[1..]);
      var e := Escape(t);
      if IsSpecial(t[0]) {
        assert e[0] == '\\' && e[1] == t[0] && e[2..] == Escape(t[1..]);
      } else {
        assert e[0] == t[0] && e[0] != '\\' && e[1..] == Escape(t[1..]);
      }
      assert t == [t[0]] + t[1..];
    }
  }

  /** The source of the backlink expression: `\[\[<escaped>\]\]`. */
  function BacklinkPattern(targetTitle: string): string {
    "\\[\\[" + Escape(targetTitle) + "\\]\\]"
  }

  /** The backlink expression stands for the literal `[[title]]`. */
  lemma BacklinkPatternLiteral(targetTitle: string)
    ensures Unescape(BacklinkPattern(targetTitle)) == Some("[[" + targetTitle + "]]")
  {
    EscapeAppend("[[" + targetTitle, "]]");
    EscapeAppend("[[", targetTitle);
    assert Escape("[[") == "\\[\\[";
    assert Escape("]]") == "\\]\\]";
    UnescapeEscape("[[" + targetTitle + "]]");
  }

  /** `regex.test(content)` for a pattern that stands for a literal, with the
      `i` flag: the literal occurs in the content ignoring case.  A pattern
      that is not a literal never arises here and matches nothing. */
  predicate RegexTest(pattern: string, content: string) {
    match Unescape(pattern)
    case None => false
    case Some(lit) => Includes(Lower(content), Lower(lit))
  }

  function LinksTo(pattern: string): Node -> bool {
    (n: Node) => n.content != "" && RegexTest(pattern, n.content)
  }

  /** `findBacklinks`: nothing for an empty title; otherwise the nodes, in
      pre-order, whose content the backlink expression matches. */
  function FindBacklinks(targetTitle: string, ns: seq<Node>): (r: seq<Node>)
    ensures targetTitle == "" ==> r == []
    ensures IsSubsequence(r, Flatten(ns))
  {
    if targetTitle == "" then [] else Filter(Flatten(ns), LinksTo(BacklinkPattern(targetTitle)))
  }

  /** The content contains `[[title]]`, ignoring case. */
  predicate Mentions(n: Node, targetTitle: string) {
    Includes(Lower(n.content), Lower("[[" + targetTitle + "]]"))
  }

  /** A node is a backlink exactly when its content mentions `[[title]]` in
      any case. */
  lemma BacklinksAreMentions(targetTitle: string, ns: seq<Node>)
    requires targetTitle != ""
    ensures forall i :: 0 <= i < |FindBacklinks(targetTitle, ns)| ==> Mentions(FindBacklinks(targetTitle, ns)[i], targetTitle)
    ensures forall i :: 0 <= i < |Flatten(ns)| && Mentions(Flatten(ns)[i], targetTitle) ==> Flatten(ns)[i] in FindBacklinks(targetTitle, ns)
  {
    BacklinkPatternLiteral(targetTitle);
    var p := LinksTo(BacklinkPattern(targetTitle));
    forall n: Node
      ensures p(n) <==> Mentions(n, targetTitle)
    {
      if n.content == "" {
        EmptyMentionsNothing(targetTitle);
      }
    }
  }

  /** An empty content mentions no link, so the `n.content &&` guard only
      skips work. */
  lemma EmptyMentionsNothing(targetTitle: string)
    ensures !Includes(Lower(""), Lower("[[" + targetTitle + "]]"))
  {
    var q := Lower("[[" + targetTitle + "]]");
    assert |q| >= 4;
    assert Lower("") == "";
    assert !StartsWith("", q);
  }

  function NotSelf(self: Node): Node -> bool {
    (n: Node) => n.id != self.id
  }

  /** The backlinks the editor and the to-do dialog list: those of the
      node's title, leaving out the node itself by id (another node with
      the same title stays). */
  function OtherBacklinks(self: Node, ns: seq<Node>): (r: seq<Node>)
    ensures forall i :: 0 <= i < |r| ==> r[i].id != self.id && r[i] in FindBacklinks(self.title, ns)
    ensures forall i :: 0 <= i < |FindBacklinks(self.title, ns)| && FindBacklinks(self.title, ns)[i].id != self.id ==>
      FindBacklinks(self.title, ns)[i] in r
    ensures IsSubsequence(r, FindBacklinks(self.title, ns))
  {
    Filter(FindBacklinks(self.title, ns), NotSelf(self))
  }
}

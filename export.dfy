/** Markdown export of utils/fileHelpers.ts: `generateMarkdown` and the file
    name `downloadMarkdown` gives the document. */
module Export {
  import opened Wrappers
  import opened Seqs
  import opened Strs
  import opened Types

  /** The string values of `NodeType`. */
  function TypeName(k: NodeType): string {
    match k
    case Folder => "folder"
    case Note => "note"
    case Todo => "todo"
    case Session => "session"
  }

  /** The string values of `Priority`. */
  function PriorityName(p: Priority): string {
    match p
    case Low => "low"
    case Medium => "medium"
    case High => "high"
    case Urgent => "urgent"
  }

  /** A boolean written into a template string. */
  function BoolName(b: bool): string {
    if b then "true" else "false"
  }

  /** The always-present front-matter lines, up to the tags. */
  function Header(n: Node, iso: int -> string): seq<string> {
    ["---", "id: " + n.id, "title: " + n.title, "type: " + TypeName(n.kind),
     "created: " + iso(n.createdAt), "updated: " + iso(n.updatedAt),
     "tags: [" + Join(n.tags, ", ") + "]"]
  }

  function CompletedLine(n: Node): string {
    if n.completed.Some? then "completed: " + BoolName(n.completed.value) else ""
  }

  function PriorityLine(n: Node): string {
    if n.priority.Some? then "priority: " + PriorityName(n.priority.value) else ""
  }

  function DueLine(n: Node): string {
    if Truthy(n.dueDate) then "due: " + n.dueDate.value else ""
  }

  /** The optional lines. */
  function Optional(n: Node): seq<string> {
    [CompletedLine(n), PriorityLine(n), DueLine(n)]
  }

  /** The closing fence, the title heading and the content, with the blank
      lines between them. */
  function Trailer(n: Node): seq<string> {
    ["---", "", "# " + n.title, "", n.content]
  }

  /** The array literal of `generateMarkdown`, before filtering.  `iso`
      stands for `new Date(t).toISOString()`. */
  function Lines(n: Node, iso: int -> string): seq<string> {
    Header(n, iso) + Optional(n) + Trailer(n)
  }

  function NonBlank(): string -> bool {
    (l: string) => l != ""
  }

  /** `generateMarkdown`: the non-empty lines joined by newlines. */
  function GenerateMarkdown(n: Node, iso: int -> string): string {
    Join(Filter(Lines(n, iso), NonBlank()), "\n")
  }

  function Present(line: string): seq<string> {
    if line == "" then [] else [line]
  }

  /** The reference document: the header, the optional lines whose field
      is set, the closing `---`, the title heading and the content when it
      is not empty.  The blank lines written after the front matter and
      after the heading are dropped by the filter as well. */
  function Document(n: Node, iso: int -> string): (r: seq<string>)
    ensures |r| == 9 + (if n.completed.Some? then 1 else 0) + (if n.priority.Some? then 1 else 0) +
                       (if Truthy(n.dueDate) then 1 else 0) + (if n.content != "" then 1 else 0)
    ensures r[..7] == Header(n, iso)
  {
    Header(n, iso) + (Present(CompletedLine(n)) + Present(PriorityLine(n)) + Present(DueLine(n))) +
    (["---", "# " + n.title] + Present(n.content))
  }

  lemma FilterOne(x: string)
    ensures Filter([x], NonBlank()) == Present(x)
  {
    assert [x][1..] == [];
  }

  lemma FilterThree(x: string, y: string, z: string)
    ensures Filter([x, y, z], NonBlank()) == Present(x) + Present(y) + Present(z)
  {
    assert [x, y, z] == [x] + [y] + [z];
    FilterOne(x);
    FilterOne(y);
    FilterOne(z);
    FilterAppend([x], [y], NonBlank());
    FilterAppend([x] + [y], [z], NonBlank());
  }

  lemma FilterTrailer(a: string, b: string, c: string)
    requires a != "" && b != ""
    ensures Filter([a, "", b, "", c], NonBlank()) == [a, b] + Present(c)
  {
    assert [a, "", b, "", c] == [a] + [""] + [b] + [""] + [c];
    FilterOne(a);
    FilterOne("");
    FilterOne(b);
    FilterOne(c);
    var p := NonBlank();
    FilterAppend([a], [""], p);
    FilterAppend([a] + [""], [b], p);
    FilterAppend([a] + [""] + [b], [""], p);
    FilterAppend([a] + [""] + [b] + [""], [c], p);
  }

  lemma HeaderNonBlank(n: Node, iso: int -> string)
    ensures forall i :: 0 <= i < |Header(n, iso)| ==> NonBlank()(Header(n, iso)[i])
  {
  }

  /** Filtering the blank lines out of the literal, for any field values. */
  lemma FilterLines(h: seq<string>, x: string, y: string, z: string, a: string, b: string, c: string)
    requires forall i :: 0 <= i < |h| ==> NonBlank()(h[i])
    requires a != "" && b != ""
    ensures Filter(h + [x, y, z] + [a, "", b, "", c], NonBlank()) ==
            h + (Present(x) + Present(y) + Present(z)) + ([a, b] + Present(c))
  {
    var p := NonBlank();
    var o, t := [x, y, z], [a, "", b, "", c];
    FilterAll(h, p);
    FilterThree(x, y, z);
    FilterTrailer(a, b, c);
    FilterAppend(h, o, p);
    FilterAppend(h + o, t, p);
  }

  /** The exported document is made of exactly the lines of the reference
      document. */
  lemma MarkdownLines(n: Node, iso: int -> string)
    ensures GenerateMarkdown(n, iso) == Join(Document(n, iso), "\n")
  {
    HeaderNonBlank(n, iso);
    FilterLines(Header(n, iso), CompletedLine(n), PriorityLine(n), DueLine(n), "---", "# " + n.title, n.content);
  }

  /** A joined list starts with its first three parts, each followed by
      the separator, when there is a fourth. */
  lemma JoinStart(d: seq<string>, sep: string)
    requires |d| >= 4
    ensures StartsWith(Join(d, sep), d[0] + sep + d[1] + sep + d[2] + sep)
  {
    var a, b, c, rest := d[0], d[1], d[2], d[3..];
    assert d == [a] + ([b] + ([c] + rest));
    JoinCons(c, rest, sep);
    JoinCons(b, [c] + rest, sep);
    JoinCons(a, [b] + ([c] + rest), sep);
    var j := Join(rest, sep);
    assert Join(d, sep) == a + sep + (b + sep + (c + sep + j));
    Regroup(a, sep, b, c, j);
    StartsWithAppend(a + sep + b + sep + c + sep, j);
  }

  lemma Regroup<T>(a: seq<T>, s: seq<T>, b: seq<T>, c: seq<T>, j: seq<T>)
    ensures a + s + (b + s + (c + s + j)) == a + s + b + s + c + s + j
  {
  }

  /** The document opens with the front-matter fence, the id line and the
      title line. */
  lemma MarkdownStart(n: Node, iso: int -> string)
    ensures StartsWith(GenerateMarkdown(n, iso), "---" + "\n" + ("id: " + n.id) + "\n" + ("title: " + n.title) + "\n")
  {
    MarkdownLines(n, iso);
    var d := Document(n, iso);
    var h := Header(n, iso);
    assert d[0] == h[0] && d[1] == h[1] && d[2] == h[2] by {
      assert d[..7] == h;
      assert d[0] == d[..7][0] && d[1] == d[..7][1] && d[2] == d[..7][2];
    }
    JoinStart(d, "\n");
  }

  /** The characters `/[^a-z0-9]/gi` leaves alone. */
  predicate IsAlnum(c: char) {
    ('a' <= c <= 'z') || ('A' <= c <= 'Z') || ('0' <= c <= '9')
  }

  function SafeChar(c: char): char {
    if IsAlnum(c) then c else '_'
  }

  /** `title.replace(/[^a-z0-9]/gi, '_').toLowerCase() + '.md'`.  After the
      replacement only ASCII letters, digits and `_` remain, so ASCII
      lower-casing is exact here. */
  function ExportFileName(title: string): (r: string)
    ensures |r| == |title| + 3
    ensures EndsWith(r, ".md")
    ensures forall i :: 0 <= i < |title| ==>
      ('a' <= r[i] <= 'z') || ('0' <= r[i] <= '9') || r[i] == '_'
  {
    Lower(seq(|title|, i requires 0 <= i < |title| => SafeChar(title[i]))) + ".md"
  }

  /** A title already made of lower-case letters, digits and `_` is used
      as it is. */
  lemma SafeTitleKept(title: string)
    requires forall i :: 0 <= i < |title| ==> ('a' <= title[i] <= 'z') || ('0' <= title[i] <= '9') || title[i] == '_'
    ensures ExportFileName(title) == title + ".md"
  {
    assert ExportFileName(title)[..|title|] == title;
  }

  /** Titles that differ only in letter case or in which punctuation they
      use share one file name. */
  lemma FileNameCollision(a: string, b: string)
    requires |a| == |b|
    requires forall i :: 0 <= i < |a| ==> LowerChar(SafeChar(a[i])) == LowerChar(SafeChar(b[i]))
    ensures ExportFileName(a) == ExportFileName(b)
  {
    assert ExportFileName(a)[..|a|] == ExportFileName(b)[..|b|];
    assert ExportFileName(a) == ExportFileName(a)[..|a|] + ".md";
    assert ExportFileName(b) == ExportFileName(b)[..|b|] + ".md";
  }

  /** Exporting a file name's stem again leaves it unchanged. */
  lemma FileNameIdempotent(title: string)
    ensures ExportFileName(ExportFileName(title)[..|title|]) == ExportFileName(title)
  {
    SafeTitleKept(ExportFileName(title)[..|title|]);
  }
}

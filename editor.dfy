/** The content edits of components/NodeEditor.tsx: the image reference
    spliced in at the cursor, the Otter transcript appended, the wiki-link
    title of a rendered part and the patch of the completed checkbox. */
module Editor {
  import opened Wrappers
  import opened Strs
  import opened Types
  import opened Tree
  import opened Edits
  import opened Links

  /** An index clamped to `0..len`, as `substring` does with its arguments. */
  function Clamp(i: int, len: nat): (r: nat)
    ensures r <= len
    ensures 0 <= i <= len ==> r == i
  {
    if i < 0 then 0 else if i > len then len else i
  }

  /** `s.substring(a, b)`: both ends clamped, swapped when out of order. */
  function Substring(s: string, a: int, b: int): (r: string)
    ensures 0 <= a <= b <= |s| ==> r == s[a..b]
    ensures |r| <= |s|
  {
    var x := Clamp(a, |s|);
    var y := Clamp(b, |s|);
    if x <= y then s[x..y] else s[y..x]
  }

  /** `s.substring(a)`. */
  function SubstringFrom(s: string, a: int): (r: string)
    ensures 0 <= a <= |s| ==> r == s[a..]
  {
    s[Clamp(a, |s|)..]
  }

  /** `\n![name](image:id)\n`. */
  function ImageMarkdown(name: string, imageId: string): string {
    "\n![" + name + "](image:" + imageId + ")\n"
  }

  /** The text area's selection, when the text area is mounted. */
  datatype Selection = Selection(start: int, end: int)

  /** `handleImageUpload` once the image is stored: it reassigns
      `newContent` by branch.  `saved` is whether `saveImageToDB`
      resolved; on failure there is no update. */
  method ImageUpload(content: string, file: Option<string>, imageId: string, saved: bool, textarea: Option<Selection>)
    returns (update: Option<string>)
    ensures file.None? || !saved ==> update.None?
    ensures file.Some? && saved && textarea.None? ==> update == Some(content + ImageMarkdown(file.value, imageId))
    ensures file.Some? && saved && textarea.Some? ==>
      update == Some(Substring(content, 0, textarea.value.start) + ImageMarkdown(file.value, imageId) +
                     SubstringFrom(content, textarea.value.end))
  {
    if file.None? || !saved {
      return None;
    }
    var imageMarkdown := ImageMarkdown(file.value, imageId);
    var newContent := content;
    if textarea.Some? {
      var start := textarea.value.start;
      var end := textarea.value.end;
      newContent := Substring(content, 0, start) + imageMarkdown + SubstringFrom(content, end);
    } else {
      newContent := newContent + imageMarkdown;
    }
    return Some(newContent);
  }

  /** For a selection inside the text, the reference replaces the selected
      characters and the rest is kept on both sides. */
  lemma SpliceSelection(content: string, name: string, imageId: string, start: int, end: int)
    requires 0 <= start <= end <= |content|
    ensures Substring(content, 0, start) + ImageMarkdown(name, imageId) + SubstringFrom(content, end) ==
            content[..start] + ImageMarkdown(name, imageId) + content[end..]
    ensures |Substring(content, 0, start) + ImageMarkdown(name, imageId) + SubstringFrom(content, end)| ==
            |content| - (end - start) + |ImageMarkdown(name, imageId)|
  {
  }

  /** A collapsed cursor inserts without losing a character. */
  lemma SpliceAtCursor(content: string, name: string, imageId: string, at: int)
    requires 0 <= at <= |content|
    ensures Substring(content, 0, at) + SubstringFrom(content, at) == content
  {
    assert content[..at] + content[at..] == content;
  }

  /** The block `handleOtterPaste` appends. */
  function OtterBlock(timestamp: string, otterText: string): string {
    "\n\n### \U{1F399}\U{FE0F} Otter Transcription (" + timestamp + ")\n> " + otterText + "\n\n"
  }

  /** `handleOtterPaste`: a blank paste is ignored; otherwise the block is
      appended to the content.  `timestamp` stands for
      `toLocaleTimeString()`. */
  function OtterPaste(content: string, otterText: string, timestamp: string): (r: Option<string>)
    ensures r.None? <==> IsBlank(otterText)
    ensures r.Some? ==> StartsWith(r.value, content) && EndsWith(r.value, otterText + "\n\n")
  {
    if IsBlank(otterText) then None
    else
      var r := content + OtterBlock(timestamp, otterText);
      StartsWithAppend(content, OtterBlock(timestamp, otterText));
      assert r[|r| - |otterText + "\n\n"|..] == otterText + "\n\n";
      Some(r)
  }

  /** The title of a rendered `[[...]]` part: `part.slice(2, -2)`. */
  function LinkTitle(part: string): (r: Option<string>)
    ensures r.Some? ==> |part| >= 4 && r.value == part[2..|part| - 2]
  {
    if StartsWith(part, "[[") && EndsWith(part, "]]") then
      assert part[..2][1] == '[' && part[|part| - 2..][0] == ']';
      Some(part[2..|part| - 2])
    else None
  }

  /** A link written as `[[title]]` gives back that title. */
  lemma LinkTitleRoundTrip(title: string)
    ensures LinkTitle("[[" + title + "]]") == Some(title)
  {
    var part := "[[" + title + "]]";
    assert part[..2] == "[[";
    assert part[|part| - 2..] == "]]";
    assert part[2..|part| - 2] == title;
  }

  /** The node a link part points at, if any. */
  function LinkTarget(part: string, ns: seq<Node>): Option<Node> {
    match LinkTitle(part)
    case None => None
    case Some(t) => FindNodeByTitle(ns, t)
  }

  /** A link resolves to a node whose title matches ignoring case. */
  lemma LinkTargetMatches(title: string, ns: seq<Node>)
    ensures LinkTarget("[[" + title + "]]", ns).Some? ==>
      Lower(LinkTarget("[[" + title + "]]", ns).value.title) == Lower(title)
  {
    LinkTitleRoundTrip(title);
  }

  /** The patch of the completed checkbox: `completedAt` is stamped when
      checked and given `undefined` when cleared. */
  function CompletionPatch(checked: bool, now: int): Patch {
    EmptyPatch.(completed := Some(Some(checked)), completedAt := Some(if checked then Some(now) else None))
  }

  /** After the patch goes through `updateNodeInTree`, the node is
      completed with a time exactly when the box was checked. */
  lemma CompletionStored(ns: seq<Node>, id: string, checked: bool, now: int, stamp: int)
    requires Find(ns, id).Some?
    ensures Find(Update(ns, id, CompletionPatch(checked, now), stamp), id).Some?
    ensures var n := Find(Update(ns, id, CompletionPatch(checked, now), stamp), id).value;
      n.completed == Some(checked) && (checked <==> n.completedAt == Some(now)) && (!checked ==> n.completedAt.None?)
  {
    FindAfterUpdate(ns, id, CompletionPatch(checked, now), stamp);
  }
}

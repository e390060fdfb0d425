/** The heading pipeline of the documentation site: a heading title is split
    on backticks into text and inline-code parts and rendered as a markup
    tree; every heading definition of the frame becomes a processed heading
    whose navigation title may carry a bullet prefix and an emoji; and the
    truthy URLs of all headings must be pairwise distinct. */
module Headings {
  import opened Wrappers
  import opened Strings

  const Backtick: char := '`'

  // ---------------------------------------------------------------------
  // Title markup: parts

  datatype NodeType = TextType | CodeType

  /** One span of a title: plain text, or the contents of an inline-code span. */
  datatype Part = Part(nodeType: NodeType, content: string)

  /** What the piece at position `i` of `Split(title, Backtick)` contributes.
      A piece at an odd position follows an opening backtick, so it is the
      content of a code span (possibly empty, possibly closed only by the end of
      the title); a piece at an even position is text, and an empty one gives
      no part at all. */
  function PieceOf(i: nat, piece: string): Option<Part> {
    if i % 2 == 1 then Some(Part(CodeType, piece))
    else if piece == [] then None
    else Some(Part(TextType, piece))
  }

  /** The parts a part-in-progress adds when it is flushed (`if (current) parts.push(current)`). */
  function Flush(current: Option<Part>): seq<Part> {
    if current.Some? then [current.value] else []
  }

  function PartsOfPieces(pieces: seq<string>): seq<Part>
    decreases |pieces|
  {
    if pieces == [] then []
    else PartsOfPieces(pieces[..|pieces| - 1]) + Flush(PieceOf(|pieces| - 1, pieces[|pieces| - 1]))
  }

  /** The parts of a title, declaratively: the pieces between backticks, in
      order, alternately text and code. */
  function TitleParts(title: string): seq<Part> {
    PartsOfPieces(Split(title, Backtick))
  }

  /** The scanner state that corresponds to having produced `pieces`: every
      piece but the last is pushed, and the last is the current part. */
  ghost predicate PieceState(pieces: seq<string>, parts: seq<Part>, current: Option<Part>) {
    pieces != [] &&
    parts == PartsOfPieces(pieces[..|pieces| - 1]) && current == PieceOf(|pieces| - 1, pieces[|pieces| - 1])
  }

  /** What the scanner of `ParseTitle` holds after reading `prefix`: the parts
      it has pushed and its current part. */
  ghost predicate ScannerState(prefix: string, parts: seq<Part>, current: Option<Part>) {
    PieceState(Split(prefix, Backtick), parts, current)
  }

  // ---------------------------------------------------------------------
  // Title markup: the rendered tree

  /** The markup tree the pipeline builds. `Text` is a raw string child,
      `Code` an inline `code` element, `Span` a `span` whose style sets a font
      size, and `Emoji` the emoji component, which is foreign code. */
  datatype Node =
    | Text(text: string)
    | Code(code: string)
    | Fragment(children: seq<Node>)
    | Span(fontSize: string, children: seq<Node>)
    | Emoji(name: string)

  function RenderPart(p: Part): Node {
    if p.nodeType == CodeType then Code(p.content) else Text(p.content)
  }

  /** Reads a rendered part back. */
  function PartOfNode(n: Node): Option<Part> {
    match n
    case Text(s) => Some(Part(TextType, s))
    case Code(s) => Some(Part(CodeType, s))
    case _ => None
  }

  /** A fragment with one child per part, in order: a `code` element for a
      code part and the raw string for a text part. */
  function Render(parts: seq<Part>): (n: Node)
    ensures n.Fragment? && |n.children| == |parts|
    ensures forall i :: 0 <= i < |parts| ==> PartOfNode(n.children[i]) == Some(parts[i])
  {
    Fragment(seq(|parts|, i requires 0 <= i < |parts| => RenderPart(parts[i])))
  }

  function PartsOfNodes(ns: seq<Node>): Option<seq<Part>>
    decreases |ns|
  {
    if ns == [] then Some([])
    else match (PartsOfNodes(ns[..|ns| - 1]), PartOfNode(ns[|ns| - 1]))
      case (Some(ps), Some(p)) => Some(ps + [p])
      case _ => None
  }

  /** The parts a tree renders, when it is a rendered title. */
  function PartsOfTree(n: Node): Option<seq<Part>> {
    if n.Fragment? then PartsOfNodes(n.children) else None
  }

  /** The markup tree parseTitle returns. */
  function TitleTree(title: string): Node {
    Render(TitleParts(title))
  }

  /** The text a reader sees in a tree (the emoji glyph aside). */
  function VisibleText(n: Node): string
    decreases n
  {
    match n
    case Text(s) => s
    case Code(s) => s
    case Fragment(cs) => VisibleTexts(cs)
    case Span(_, cs) => VisibleTexts(cs)
    case Emoji(_) => []
  }

  function VisibleTexts(cs: seq<Node>): string
    decreases cs
  {
    if cs == [] then [] else VisibleTexts(cs[..|cs| - 1]) + VisibleText(cs[|cs| - 1])
  }

  function Contents(parts: seq<Part>): string {
    if parts == [] then [] else Contents(parts[..|parts| - 1]) + parts[|parts| - 1].content
  }

  // ---------------------------------------------------------------------
  // parseTitle

  lemma PieceClose(pieces: seq<string>, parts: seq<Part>, current: Option<Part>)
    requires PieceState(pieces, parts, current)
    requires current.Some? && current.value.nodeType == CodeType
    ensures PieceState(pieces + [[]], parts + [current.value], None)
  {
    var n := |pieces| - 1;
    var next := pieces + [[]];
    PartsOfPiecesSnoc(pieces);
    assert next[..n + 1] == pieces && next[n + 1] == [];
    assert n % 2 == 1;
  }

  lemma PieceOpen(pieces: seq<string>, parts: seq<Part>, current: Option<Part>)
    requires PieceState(pieces, parts, current)
    requires !(current.Some? && current.value.nodeType == CodeType)
    ensures PieceState(pieces + [[]], parts + Flush(current), Some(Part(CodeType, [])))
  {
    var n := |pieces| - 1;
    var next := pieces + [[]];
    PartsOfPiecesSnoc(pieces);
    assert next[..n + 1] == pieces && next[n + 1] == [];
    assert n % 2 == 0;
  }

  lemma PieceExtend(pieces: seq<string>, parts: seq<Part>, current: Option<Part>, letter: char)
    requires PieceState(pieces, parts, current)
    ensures var started := if current.Some? then current.value else Part(TextType, []);
      var n := |pieces| - 1;
      PieceState(pieces[..n] + [pieces[n] + [letter]], parts, Some(started.(content := started.content + [letter])))
  {
    var n := |pieces| - 1;
    assert (pieces[..n] + [pieces[n] + [letter]])[..n] == pieces[..n];
  }

  /** A backtick while a code span is open closes it. */
  lemma CloseCode(title: string, i: nat, parts: seq<Part>, current: Option<Part>)
    requires i < |title| && title[i] == Backtick && ScannerState(title[..i], parts, current)
    requires current.Some? && current.value.nodeType == CodeType
    ensures ScannerState(title[..i + 1], parts + [current.value], None)
  {
    assert title[..i + 1] == title[..i] + [Backtick];
    SplitSnoc(title[..i], Backtick, Backtick);
    PieceClose(Split(title[..i], Backtick), parts, current);
  }

  /** A backtick outside a code span flushes the current text and opens an
      empty code span. */
  lemma OpenCode(title: string, i: nat, parts: seq<Part>, current: Option<Part>)
    requires i < |title| && title[i] == Backtick && ScannerState(title[..i], parts, current)
    requires !(current.Some? && current.value.nodeType == CodeType)
    ensures ScannerState(title[..i + 1], parts + Flush(current), Some(Part(CodeType, [])))
  {
    assert title[..i + 1] == title[..i] + [Backtick];
    SplitSnoc(title[..i], Backtick, Backtick);
    PieceOpen(Split(title[..i], Backtick), parts, current);
  }

  /** Any other letter extends the current part, or starts a text part. */
  lemma ExtendPart(title: string, i: nat, parts: seq<Part>, current: Option<Part>)
    requires i < |title| && title[i] != Backtick && ScannerState(title[..i], parts, current)
    ensures var started := if current.Some? then current.value else Part(TextType, []);
      ScannerState(title[..i + 1], parts, Some(started.(content := started.content + [title[i]])))
  {
    assert title[..i + 1] == title[..i] + [title[i]];
    SplitSnoc(title[..i], title[i], Backtick);
    PieceExtend(Split(title[..i], Backtick), parts, current, title[i]);
  }

  /** Flushing the part still open at the end completes the parts of the title. */
  lemma FinishScan(title: string, parts: seq<Part>, current: Option<Part>)
    requires ScannerState(title, parts, current)
    ensures parts + Flush(current) == TitleParts(title)
  {
    PartsOfPiecesSnoc(Split(title, Backtick));
  }

  /** One turn of parseTitle's loop, on letter `i` of the title: a backtick
      closes an open code span, or else flushes the current text and opens
      one; any other letter extends the current part, or starts a text part. */
  method ScanLetter(title: string, i: nat, parts: seq<Part>, current: Option<Part>)
    returns (parts': seq<Part>, current': Option<Part>)
    requires i < |title| && ScannerState(title[..i], parts, current)
    ensures ScannerState(title[..i + 1], parts', current')
  {
    var letter := title[i];
    if letter == Backtick {
      if current.Some? && current.value.nodeType == CodeType {
        CloseCode(title, i, parts, current);
        parts' := parts + [current.value];
        current' := None;
      } else {
        OpenCode(title, i, parts, current);
        parts' := parts;
        if current.Some? {
          parts' := parts + [current.value];
        }
        current' := Some(Part(CodeType, []));
      }
    } else {
      ExtendPart(title, i, parts, current);
      parts' := parts;
      current' := current;
      if current'.None? {
        current' := Some(Part(TextType, []));
      }
      current' := Some(current'.value.(content := current'.value.content + [letter]));
    }
  }

  /** The scanner of parseTitle: one pass over the letters of the title; the
      part still open at the end is flushed. Returns the rendered tree. */
  method ParseTitle(title: string) returns (tree: Node)
    ensures tree == TitleTree(title)
  {
    var parts: seq<Part> := [];
    var current: Option<Part> := None;
    var i := 0;
    while i < |title|
      invariant 0 <= i <= |title|
      invariant ScannerState(title[..i], parts, current)
    {
      parts, current := ScanLetter(title, i, parts, current);
      i := i + 1;
    }
    assert title[..|title|] == title;
    FinishScan(title, parts, current);
    if current.Some? {
      parts := parts + [current.value];
    }
    tree := Render(parts);
  }

  // ---------------------------------------------------------------------
  // What parseTitle promises

  function CodeCount(parts: seq<Part>): nat {
    if parts == [] then 0
    else CodeCount(parts[..|parts| - 1]) + (if parts[|parts| - 1].nodeType == CodeType then 1 else 0)
  }

  /** No text part is directly followed by another text part. */
  predicate NoAdjacentText(parts: seq<Part>) {
    forall k :: 0 <= k < |parts| - 1 ==> !(parts[k].nodeType == TextType && parts[k + 1].nodeType == TextType)
  }

  /** The last part of `PartsOfPieces(pieces)`, appended to the others. */
  lemma PartsOfPiecesSnoc(pieces: seq<string>)
    requires pieces != []
    ensures var ps := PartsOfPieces(pieces[..|pieces| - 1]);
      var f := Flush(PieceOf(|pieces| - 1, pieces[|pieces| - 1]));
      if f == [] then PartsOfPieces(pieces) == ps
      else PartsOfPieces(pieces) == ps + f && (ps + f)[..|ps|] == ps && (ps + f)[|ps|] == f[0]
  {
    var ps := PartsOfPieces(pieces[..|pieces| - 1]);
    assert ps + [] == ps;
  }

  /** A part holds no backtick, and a text part holds at least one letter. */
  predicate WellFormedPart(p: Part) {
    Backtick !in p.content && (p.nodeType == TextType ==> p.content != [])
  }

  lemma {:induction false} PiecesContentShape(pieces: seq<string>)
    requires forall k :: 0 <= k < |pieces| ==> Backtick !in pieces[k]
    ensures forall k :: 0 <= k < |PartsOfPieces(pieces)| ==> WellFormedPart(PartsOfPieces(pieces)[k])
    decreases |pieces|
  {
    if pieces != [] {
      PiecesContentShape(pieces[..|pieces| - 1]);
      PartsOfPiecesSnoc(pieces);
    }
  }

  lemma NoAdjacentTextSnoc(ps: seq<Part>, p: Part)
    requires NoAdjacentText(ps)
    requires ps != [] && p.nodeType == TextType ==> ps[|ps| - 1].nodeType == CodeType
    ensures NoAdjacentText(ps + [p])
  {
    var qs := ps + [p];
    forall k | 0 <= k < |qs| - 1
      ensures !(qs[k].nodeType == TextType && qs[k + 1].nodeType == TextType)
    {
      if k < |ps| - 1 {
        assert qs[k] == ps[k] && qs[k + 1] == ps[k + 1];
      } else {
        assert qs[k] == ps[|ps| - 1] && qs[k + 1] == p;
      }
    }
  }

  lemma {:induction false} PiecesNoAdjacentText(pieces: seq<string>)
    ensures var ps := PartsOfPieces(pieces);
      NoAdjacentText(ps) && (|pieces| % 2 == 0 && pieces != [] ==> ps != [] && ps[|ps| - 1].nodeType == CodeType)
    decreases |pieces|
  {
    if pieces != [] {
      var n := |pieces| - 1;
      PiecesNoAdjacentText(pieces[..n]);
      PartsOfPiecesSnoc(pieces);
      var ps := PartsOfPieces(pieces[..n]);
      var current := PieceOf(n, pieces[n]);
      if current.Some? {
        NoAdjacentTextSnoc(ps, current.value);
        assert PartsOfPieces(pieces) == ps + [current.value];
      }
    }
  }

  lemma {:induction false} PiecesCodeCount(pieces: seq<string>)
    ensures CodeCount(PartsOfPieces(pieces)) == |pieces| / 2
    decreases |pieces|
  {
    if pieces != [] {
      var n := |pieces| - 1;
      PiecesCodeCount(pieces[..n]);
      PartsOfPiecesSnoc(pieces);
      var ps := PartsOfPieces(pieces[..n]);
      if n % 2 == 1 {
        assert PartsOfPieces(pieces) == ps + [Part(CodeType, pieces[n])];
        assert CodeCount(PartsOfPieces(pieces)) == CodeCount(ps) + 1;
        assert |pieces| / 2 == n / 2 + 1;
      } else {
        assert CodeCount(PartsOfPieces(pieces)) == CodeCount(ps);
        assert |pieces| / 2 == n / 2;
      }
    }
  }

  lemma {:induction false} PiecesPartCount(pieces: seq<string>)
    ensures |PartsOfPieces(pieces)| <= |pieces|
    decreases |pieces|
  {
    if pieces != [] {
      PiecesPartCount(pieces[..|pieces| - 1]);
      PartsOfPiecesSnoc(pieces);
    }
  }

  /** Joining the contents of the parts gives back the title with every backtick removed. */
  lemma {:induction false} ContentsOfPieces(pieces: seq<string>)
    ensures Contents(PartsOfPieces(pieces)) == Concat(pieces)
    decreases |pieces|
  {
    if pieces != [] {
      ContentsOfPieces(pieces[..|pieces| - 1]);
      PartsOfPiecesSnoc(pieces);
    }
  }

  lemma TitleContents(title: string)
    ensures Contents(TitleParts(title)) == Remove(title, Backtick)
  {
    ContentsOfPieces(Split(title, Backtick));
    ConcatOfSplit(title, Backtick);
  }

  /** Every text part is non-empty (only a letter starts one), and no part holds a backtick. */
  lemma PartsAreWellFormed(title: string)
    ensures forall k :: 0 <= k < |TitleParts(title)| ==> WellFormedPart(TitleParts(title)[k])
  {
    var pieces := Split(title, Backtick);
    assert forall k :: 0 <= k < |pieces| ==> Backtick !in pieces[k];
    PiecesContentShape(pieces);
  }

  /** Two text parts are never adjacent; two code parts can be. */
  lemma TextPartsNotAdjacent(title: string)
    ensures NoAdjacentText(TitleParts(title))
  {
    PiecesNoAdjacentText(Split(title, Backtick));
  }

  /** With k backticks there are ceil(k / 2) code parts, an unterminated last
      span included, and at most k + 1 parts in all. */
  lemma CodePartCount(title: string)
    ensures CodeCount(TitleParts(title)) == (Count(title, Backtick) + 1) / 2
    ensures |TitleParts(title)| <= Count(title, Backtick) + 1
  {
    PiecesCodeCount(Split(title, Backtick));
    PiecesPartCount(Split(title, Backtick));
  }

  /** A title without backticks is one text part, or no part when empty. */
  lemma TitleWithoutBackticks(title: string)
    requires Backtick !in title
    ensures TitleParts(title) == if title == [] then [] else [Part(TextType, title)]
  {
    SplitWithoutSeparator(title, Backtick);
    PartsOfPiecesSnoc([title]);
    assert [title][..0] == [];
  }

  /** A title made of backtick-free pieces joined by backticks parses piece by piece. */
  lemma TitleOfPieces(pieces: seq<string>)
    requires |pieces| > 0
    requires forall k :: 0 <= k < |pieces| ==> Backtick !in pieces[k]
    ensures TitleParts(Join(pieces, Backtick)) == PartsOfPieces(pieces)
  {
    SplitOfJoin(pieces, Backtick);
  }

  lemma UseFooNowPieces()
    ensures TitleParts("Use `foo` now") == PartsOfPieces(["Use ", "foo", " now"])
  {
    var pieces := ["Use ", "foo", " now"];
    assert pieces[..2] == ["Use ", "foo"] && pieces[..2][..1] == ["Use "];
    assert Join(pieces[..2], Backtick) == "Use `foo";
    assert Join(pieces, Backtick) == "Use `foo` now";
    TitleOfPieces(pieces);
  }

  lemma UseFooNowParts()
    ensures PartsOfPieces(["Use ", "foo", " now"]) ==
      [Part(TextType, "Use "), Part(CodeType, "foo"), Part(TextType, " now")]
  {
    var p1, p2, p3 := ["Use "], ["Use ", "foo"], ["Use ", "foo", " now"];
    assert PartsOfPieces(p1) == [Part(TextType, "Use ")] by {
      PartsOfPiecesSnoc(p1);
      assert p1[..0] == [];
    }
    assert PartsOfPieces(p2) == [Part(TextType, "Use "), Part(CodeType, "foo")] by {
      PartsOfPiecesSnoc(p2);
      assert p2[..1] == p1;
    }
    PartsOfPiecesSnoc(p3);
    assert p3[..2] == p2;
  }

  /** "Use `foo` now" parses as text "Use ", code "foo", text " now". */
  lemma ParseUseFooNow()
    ensures TitleParts("Use `foo` now") ==
      [Part(TextType, "Use "), Part(CodeType, "foo"), Part(TextType, " now")]
  {
    UseFooNowPieces();
    UseFooNowParts();
  }

  lemma AdjacentCodePieces()
    ensures TitleParts("`a``b`") == PartsOfPieces(["", "a", "", "b", ""])
  {
    var pieces := ["", "a", "", "b", ""];
    assert pieces[..4] == ["", "a", "", "b"] && pieces[..4][..3] == ["", "a", ""];
    assert pieces[..4][..3][..2] == ["", "a"] && pieces[..4][..3][..2][..1] == [""];
    assert Join(pieces[..4][..3][..2], Backtick) == "`a";
    assert Join(pieces[..4][..3], Backtick) == "`a`";
    assert Join(pieces[..4], Backtick) == "`a``b";
    assert Join(pieces, Backtick) == "`a``b`";
    TitleOfPieces(pieces);
  }

  lemma AdjacentCodeParts()
    ensures PartsOfPieces(["", "a", "", "b", ""]) == [Part(CodeType, "a"), Part(CodeType, "b")]
  {
    var p1, p2, p3, p4, p5 := [""], ["", "a"], ["", "a", ""], ["", "a", "", "b"], ["", "a", "", "b", ""];
    assert PartsOfPieces(p1) == [] by {
      PartsOfPiecesSnoc(p1);
      assert p1[..0] == [];
    }
    assert PartsOfPieces(p2) == [Part(CodeType, "a")] by {
      PartsOfPiecesSnoc(p2);
      assert p2[..1] == p1;
    }
    assert PartsOfPieces(p3) == [Part(CodeType, "a")] by {
      PartsOfPiecesSnoc(p3);
      assert p3[..2] == p2;
    }
    assert PartsOfPieces(p4) == [Part(CodeType, "a"), Part(CodeType, "b")] by {
      PartsOfPiecesSnoc(p4);
      assert p4[..3] == p3;
    }
    PartsOfPiecesSnoc(p5);
    assert p5[..4] == p4;
  }

  /** "`a``b`" parses as two adjacent code parts. */
  lemma ParseAdjacentCode()
    ensures TitleParts("`a``b`") == [Part(CodeType, "a"), Part(CodeType, "b")]
  {
    AdjacentCodePieces();
    AdjacentCodeParts();
  }

  /** Reading the rendered tree back gives the parts, in order. */
  lemma {:induction false} RenderRoundTrip(parts: seq<Part>)
    ensures PartsOfTree(Render(parts)) == Some(parts)
    decreases |parts|
  {
    if parts != [] {
      var init := parts[..|parts| - 1];
      RenderRoundTrip(init);
      var cs := Render(parts).children;
      assert cs[..|cs| - 1] == Render(init).children;
      assert init + [parts[|parts| - 1]] == parts;
    }
  }

  lemma {:induction false} RenderedText(parts: seq<Part>)
    ensures VisibleText(Render(parts)) == Contents(parts)
    decreases |parts|
  {
    if parts != [] {
      var init := parts[..|parts| - 1];
      RenderedText(init);
      var cs := Render(parts).children;
      assert cs[..|cs| - 1] == Render(init).children;
      assert VisibleText(Render(parts)) == VisibleTexts(cs[..|cs| - 1]) + VisibleText(cs[|cs| - 1]);
      assert VisibleText(cs[|cs| - 1]) == parts[|parts| - 1].content;
    }
  }

  /** A rendered title shows exactly the title without its backticks. */
  lemma TitleTreeText(title: string)
    ensures VisibleText(TitleTree(title)) == Remove(title, Backtick)
  {
    RenderedText(TitleParts(title));
    TitleContents(title);
  }

  // ---------------------------------------------------------------------
  // Heading definitions and processed headings

  /** A heading definition as the frame supplies it. The source's union type
      ties the fields to the level (1 to 4); the processing below does not
      depend on that, so every combination is admitted here. `titleEmoji` and
      `isListTitle` are `None` when the key is absent; `isListTitle ==
      Some(false)` stands for a present key whose value is not `true`, and
      `titleEmoji == Some([])` for a present key whose value is falsy. */
  datatype HeadingDefinition = HeadingDefinition(
    level: nat,
    title: string,
    url: Option<string>,
    titleDocument: Option<string>,
    titleInNav: Option<string>,
    isActive: bool,
    titleEmoji: Option<string>,
    isListTitle: Option<bool>)

  /** A processed heading: the definition with `title` and `titleInNav`
      replaced by markup trees. */
  datatype Heading = Heading(
    level: nat,
    title: Node,
    url: Option<string>,
    titleDocument: Option<string>,
    titleInNav: Node,
    isActive: bool,
    titleEmoji: Option<string>,
    isListTitle: Option<bool>)

  /** The assertions of getHeadings and assert_headings that can fail. */
  datatype HeadingError =
    | HeadingsUndefined
    | ListTitleNotTrue(title: string)
    | EmojiMissing(title: string)
    | DuplicateUrl(url: string)

  const NonBreakingSpace: char := 0xA0 as char
  const BulletPoint: char := 0x2022 as char

  /** getListPrefix: no-break space, bullet, no-break space. */
  const ListPrefix: string := [NonBreakingSpace, BulletPoint, NonBreakingSpace]

  /** `heading.titleInNav || heading.title`: an absent or empty override falls back to the title. */
  function NavTitle(h: HeadingDefinition): string {
    if h.titleInNav.Some? && h.titleInNav.value != [] then h.titleInNav.value else h.title
  }

  /** withEmoji: the emoji at 1.4em, a space, then the title at 1rem. */
  function WithEmoji(name: string, title: Node): Node {
    Span("1.4em", [Emoji(name), Text(" "), Span("1rem", [title])])
  }

  /** The navigation title of a list-style heading: the bullet prefix, then the parsed title. */
  function WithListPrefix(title: Node): Node {
    Fragment([Text(ListPrefix), title])
  }

  /** The emoji a navigation title is decorated with, read back. */
  function EmojiOf(n: Node): Option<string> {
    if n.Span? && n.fontSize == "1.4em" && |n.children| == 3 && n.children[0].Emoji?
      && n.children[1] == Text(" ") && n.children[2].Span? && n.children[2].fontSize == "1rem"
      && |n.children[2].children| == 1
    then Some(n.children[0].name)
    else None
  }

  function WithoutEmoji(n: Node): Node {
    if EmojiOf(n).Some? then n.children[2].children[0] else n
  }

  predicate HasListPrefix(n: Node) {
    n.Fragment? && |n.children| == 2 && n.children[0] == Text(ListPrefix) && n.children[1].Fragment?
  }

  function WithoutListPrefix(n: Node): Node {
    if HasListPrefix(n) then n.children[1] else n
  }

  /** A rendered title is a fragment of text and code nodes only. */
  lemma TitleTreeIsPlain(title: string)
    ensures PartsOfTree(TitleTree(title)) == Some(TitleParts(title))
    ensures EmojiOf(TitleTree(title)).None? && !HasListPrefix(TitleTree(title))
  {
    RenderRoundTrip(TitleParts(title));
    var n := TitleTree(title);
    if |n.children| == 2 {
      assert PartOfNode(n.children[1]).Some?;
    }
  }

  /** The per-heading mapping of getHeadings. The navigation title is the
      parsed `titleInNav || title`; a list-style heading puts the bullet prefix
      before it; an emoji, when declared, wraps the result from outside. All
      other fields are carried over. */
  function ProcessHeading(h: HeadingDefinition): (r: Result<Heading, HeadingError>)
    ensures r.Ok? <==> h.isListTitle != Some(false) && h.titleEmoji != Some([])
    ensures h.isListTitle == Some(false) ==> r == Err(ListTitleNotTrue(h.title))
    ensures h.isListTitle != Some(false) && h.titleEmoji == Some([]) ==> r == Err(EmojiMissing(h.title))
  {
    if h.isListTitle.Some? && !h.isListTitle.value then
      Err(ListTitleNotTrue(h.title))
    else if h.titleEmoji.Some? && h.titleEmoji.value == [] then
      Err(EmojiMissing(h.title))
    else
      var nav := Decorate(h.titleEmoji, h.isListTitle.Some?, TitleTree(NavTitle(h)));
      Ok(Heading(h.level, TitleTree(h.title), h.url, h.titleDocument, nav, h.isActive,
                 h.titleEmoji, h.isListTitle))
  }

  /** The navigation title built from the parsed one: the bullet prefix for a
      list title, then the emoji decoration when an emoji is declared. */
  function Decorate(emoji: Option<string>, isList: bool, t: Node): Node {
    var listed := if isList then WithListPrefix(t) else t;
    if emoji.Some? then WithEmoji(emoji.value, listed) else listed
  }

  /** The decorations can be read back off a plain fragment: the emoji is the
      outermost layer, then the bullet prefix, then the tree decorated. */
  lemma DecorateShape(emoji: Option<string>, isList: bool, t: Node)
    requires t.Fragment? && !HasListPrefix(t) && EmojiOf(t).None?
    ensures var d := Decorate(emoji, isList, t);
      EmojiOf(d) == emoji && HasListPrefix(WithoutEmoji(d)) == isList &&
      WithoutListPrefix(WithoutEmoji(d)) == t
  {
  }

  lemma VisibleTextsSnoc(cs: seq<Node>, c: Node)
    ensures VisibleTexts(cs + [c]) == VisibleTexts(cs) + VisibleText(c)
  {
    assert (cs + [c])[..|cs|] == cs;
  }

  lemma VisibleTextsPair(a: Node, b: Node)
    ensures VisibleTexts([a, b]) == VisibleText(a) + VisibleText(b)
  {
    VisibleTextsSnoc([], a);
    VisibleTextsSnoc([a], b);
    assert [] + [a] == [a] && [a] + [b] == [a, b];
  }

  lemma WithEmojiText(name: string, n: Node)
    ensures VisibleText(WithEmoji(name, n)) == " " + VisibleText(n)
  {
    var e := Emoji(name);
    VisibleTextsPair(e, Text(" "));
    VisibleTextsSnoc([e, Text(" ")], Span("1rem", [n]));
    assert [e, Text(" ")] + [Span("1rem", [n])] == [e, Text(" "), Span("1rem", [n])];
    VisibleTextsSnoc([], n);
    assert [] + [n] == [n];
  }

  lemma WithListPrefixText(n: Node)
    ensures VisibleText(WithListPrefix(n)) == ListPrefix + VisibleText(n)
  {
    VisibleTextsPair(Text(ListPrefix), n);
  }

  /** The decorations add a space after the emoji and the bullet prefix to
      what a reader sees. */
  lemma DecorateText(emoji: Option<string>, isList: bool, t: Node)
    ensures VisibleText(Decorate(emoji, isList, t)) ==
      (if emoji.Some? then " " else []) + (if isList then ListPrefix else []) + VisibleText(t)
  {
    var listed := if isList then WithListPrefix(t) else t;
    WithListPrefixText(t);
    assert VisibleText(listed) == (if isList then ListPrefix else []) + VisibleText(t);
    if emoji.Some? {
      WithEmojiText(emoji.value, listed);
    }
  }

  /** A processed heading carries the definition's fields over and holds the
      parsed title; its navigation title is, from outside in, the emoji
      decoration exactly when an emoji is declared, the bullet prefix exactly
      when the heading is a list title, and the parsed navigation title. */
  lemma ProcessedHeadingShape(h: HeadingDefinition)
    requires ProcessHeading(h).Ok?
    ensures var g := ProcessHeading(h).value;
      && g.level == h.level && g.url == h.url && g.titleDocument == h.titleDocument
      && g.isActive == h.isActive && g.titleEmoji == h.titleEmoji && g.isListTitle == h.isListTitle
      && PartsOfTree(g.title) == Some(TitleParts(h.title))
    ensures var nav := ProcessHeading(h).value.titleInNav;
      && EmojiOf(nav) == h.titleEmoji
      && HasListPrefix(WithoutEmoji(nav)) == (h.isListTitle == Some(true))
      && PartsOfTree(WithoutListPrefix(WithoutEmoji(nav))) == Some(TitleParts(NavTitle(h)))
  {
    var t := TitleTree(NavTitle(h));
    TitleTreeIsPlain(h.title);
    TitleTreeIsPlain(NavTitle(h));
    DecorateShape(h.titleEmoji, h.isListTitle.Some?, t);
    assert ProcessHeading(h).value.titleInNav == Decorate(h.titleEmoji, h.isListTitle.Some?, t);
  }

  /** What a reader sees of a navigation title: the space after the emoji, the
      bullet prefix, and the navigation title without its backticks. */
  lemma NavTitleText(h: HeadingDefinition)
    requires ProcessHeading(h).Ok?
    ensures VisibleText(ProcessHeading(h).value.titleInNav) ==
      (if h.titleEmoji.Some? then " " else []) +
      (if h.isListTitle == Some(true) then ListPrefix else []) +
      Remove(NavTitle(h), Backtick)
  {
    var t := TitleTree(NavTitle(h));
    TitleTreeText(NavTitle(h));
    DecorateText(h.titleEmoji, h.isListTitle.Some?, t);
    assert ProcessHeading(h).value.titleInNav == Decorate(h.titleEmoji, h.isListTitle.Some?, t);
  }

  /** `xs.map(f)` where `f` may throw: the results in order, or the error
      of the first element `f` fails on. */
  function MapUntilError<A, B, E>(f: A -> Result<B, E>, xs: seq<A>): Result<seq<B>, E> {
    if xs == [] then Ok([])
    else
      match MapUntilError(f, xs[..|xs| - 1])
      case Err(e) => Err(e)
      case Ok(ys) =>
        match f(xs[|xs| - 1])
        case Err(e) => Err(e)
        case Ok(y) => Ok(ys + [y])
  }

  /** The mapping succeeds exactly when `f` succeeds everywhere, keeping count
      and order; otherwise it fails with the error of the first failure. */
  lemma {:induction false} MapUntilErrorOutcome<A, B, E>(f: A -> Result<B, E>, xs: seq<A>)
    ensures MapUntilError(f, xs).Ok? <==> forall i :: 0 <= i < |xs| ==> f(xs[i]).Ok?
    ensures MapUntilError(f, xs).Ok? ==>
      |MapUntilError(f, xs).value| == |xs| &&
      (forall i :: 0 <= i < |xs| ==> f(xs[i]) == Ok(MapUntilError(f, xs).value[i]))
    ensures MapUntilError(f, xs).Err? ==>
      exists i :: 0 <= i < |xs| && f(xs[i]) == Err(MapUntilError(f, xs).error) &&
        (forall j :: 0 <= j < i ==> f(xs[j]).Ok?)
    decreases |xs|
  {
    if xs != [] {
      var init := xs[..|xs| - 1];
      MapUntilErrorOutcome(f, init);
      assert forall j :: 0 <= j < |init| ==> init[j] == xs[j];
      var r := MapUntilError(f, init);
      if r.Err? {
        var i :| 0 <= i < |init| && f(init[i]) == Err(r.error) &&
          (forall j :: 0 <= j < i ==> f(init[j]).Ok?);
        assert f(xs[i]) == Err(r.error);
      }
    }
  }

  /** `_headings.map(...)` with the per-heading mapping. */
  function ProcessHeadings(defs: seq<HeadingDefinition>): Result<seq<Heading>, HeadingError> {
    MapUntilError(ProcessHeading, defs)
  }

  // ---------------------------------------------------------------------
  // assert_headings

  /** `if (heading.url)`: present and non-empty. */
  predicate HasUrl(url: Option<string>) {
    url.Some? && url.value != []
  }

  function HeadingUrls(hs: seq<Heading>): seq<Option<string>> {
    seq(|hs|, i requires 0 <= i < |hs| => hs[i].url)
  }

  function DefinitionUrls(defs: seq<HeadingDefinition>): seq<Option<string>> {
    seq(|defs|, i requires 0 <= i < |defs| => defs[i].url)
  }

  /** No two headings share a truthy URL. */
  predicate UniqueUrls(urls: seq<Option<string>>) {
    forall a, b :: 0 <= a < b < |urls| && HasUrl(urls[a]) && HasUrl(urls[b]) ==> urls[a] != urls[b]
  }

  /** The URL at `j` is truthy and already appeared before `j`. */
  predicate DuplicateAt(urls: seq<Option<string>>, j: nat)
    requires j < |urls|
  {
    HasUrl(urls[j]) && exists a :: 0 <= a < j && urls[a] == urls[j]
  }

  lemma UniqueIffNoDuplicate(urls: seq<Option<string>>)
    ensures UniqueUrls(urls) <==> forall j :: 0 <= j < |urls| ==> !DuplicateAt(urls, j)
  {
    if !UniqueUrls(urls) {
      var a, b :| 0 <= a < b < |urls| && HasUrl(urls[a]) && HasUrl(urls[b]) && urls[a] == urls[b];
      assert DuplicateAt(urls, b);
    }
  }

  /** assert_headings: one pass filling a dictionary of the URLs seen so far;
      returns the first URL that was already in it, if any. */
  method AssertHeadings(headings: seq<Heading>) returns (duplicate: Option<string>)
    ensures duplicate.None? <==> UniqueUrls(HeadingUrls(headings))
    ensures duplicate.Some? ==>
      exists j :: 0 <= j < |headings| &&
        DuplicateAt(HeadingUrls(headings), j) && headings[j].url == duplicate &&
        (forall k :: 0 <= k < j ==> !DuplicateAt(HeadingUrls(headings), k))
  {
    ghost var U := HeadingUrls(headings);
    var urls: map<string, bool> := map[];
    var i := 0;
    while i < |headings|
      invariant 0 <= i <= |headings|
      invariant forall u :: u in urls ==> urls[u]
      invariant forall u :: u in urls <==> exists k :: 0 <= k < i && HasUrl(U[k]) && U[k].value == u
      invariant forall k :: 0 <= k < i ==> !DuplicateAt(U, k)
    {
      var url := headings[i].url;
      assert U[i] == url;
      if url.Some? && url.value != [] {
        if url.value in urls && urls[url.value] {
          ghost var k :| 0 <= k < i && HasUrl(U[k]) && U[k].value == url.value;
          assert U[k] == U[i];
          assert DuplicateAt(U, i);
          UniqueIffNoDuplicate(U);
          return url;
        }
        urls := urls[url.value := true];
        assert HasUrl(U[i]) && U[i].value == url.value;
      }
      i := i + 1;
    }
    UniqueIffNoDuplicate(U);
    return None;
  }

  // ---------------------------------------------------------------------
  // getHeadings

  /** getHeadings over the headings the frame supplies (`None` when it has none). */
  method GetHeadings(frameHeadings: Option<seq<HeadingDefinition>>) returns (r: Result<seq<Heading>, HeadingError>)
    ensures frameHeadings.None? ==> r == Err(HeadingsUndefined)
    ensures frameHeadings.Some? ==> var defs := frameHeadings.value;
      r.Ok? <==> (forall i :: 0 <= i < |defs| ==> ProcessHeading(defs[i]).Ok?) && UniqueUrls(DefinitionUrls(defs))
    ensures r.Ok? ==>
      frameHeadings.Some? && |r.value| == |frameHeadings.value| &&
      (forall i :: 0 <= i < |r.value| ==> ProcessHeading(frameHeadings.value[i]) == Ok(r.value[i]))
    ensures r.Err? && frameHeadings.Some? && ProcessHeadings(frameHeadings.value).Ok? ==>
      r.error.DuplicateUrl? && r.error.url != [] &&
      (exists a, b :: 0 <= a < b < |frameHeadings.value| &&
        frameHeadings.value[a].url == frameHeadings.value[b].url == Some(r.error.url))
    ensures r.Err? && frameHeadings.Some? && ProcessHeadings(frameHeadings.value).Err? ==>
      r == ProcessHeadings(frameHeadings.value)
  {
    if frameHeadings.None? {
      return Err(HeadingsUndefined);
    }
    var defs := frameHeadings.value;
    var processed := ProcessHeadings(defs);
    MapUntilErrorOutcome(ProcessHeading, defs);
    if processed.Err? {
      return Err(processed.error);
    }
    var headings := processed.value;
    assert HeadingUrls(headings) == DefinitionUrls(defs);
    var duplicate := AssertHeadings(headings);
    if duplicate.Some? {
      var j :| 0 <= j < |headings| && DuplicateAt(HeadingUrls(headings), j) && headings[j].url == duplicate;
      var a :| 0 <= a < j && HeadingUrls(headings)[a] == HeadingUrls(headings)[j];
      assert defs[a].url == defs[j].url == Some(duplicate.value);
      return Err(DuplicateUrl(duplicate.value));
    }
    return Ok(headings);
  }

  /** A level-1 heading with an emoji: its navigation title is the parsed
      title wrapped in the emoji decoration. */
  lemma EmojiHeadingExample(title: string)
    ensures ProcessHeading(HeadingDefinition(1, title, None, None, None, false, Some("rocket"), None))
      == Ok(Heading(1, TitleTree(title), None, None, WithEmoji("rocket", TitleTree(title)), false, Some("rocket"), None))
  {
  }

  /** A level-2 list heading without an emoji: its navigation title is the
      bullet prefix before the parsed title, with no emoji decoration. */
  lemma ListHeadingExample(title: string, url: string)
    ensures var h := HeadingDefinition(2, title, Some(url), None, None, false, None, Some(true));
      ProcessHeading(h).Ok? && ProcessHeading(h).value.titleInNav == WithListPrefix(TitleTree(title))
      && EmojiOf(ProcessHeading(h).value.titleInNav).None?
  {
  }

  lemma DuplicateUrlExample()
    ensures !UniqueUrls([Some("/a"), Some("/a")])
    ensures UniqueUrls([Some("/a"), Some("/b")])
    ensures UniqueUrls([None, Some(""), Some(""), Some("/a")])
  {
    var dup: seq<Option<string>> := [Some("/a"), Some("/a")];
    assert HasUrl(dup[0]) && HasUrl(dup[1]) && dup[0] == dup[1];
    assert "/a"[1] != "/b"[1];
  }
}

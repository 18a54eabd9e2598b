// Splitting one line of markdown into plain text, code, strong, em and link parts
// (studio/src/lib/markdown.ts:128-171).
module MarkdownInline {
  import opened Wrappers
  import opened Strings

  datatype Part =
    | Text(text: string)
    | CodePart(text: string)
    | Strong(text: string)
    | Em(text: string)
    | Link(text: string, href: string)

  // ---- the spans the inline pattern captures ----

  /** The length of the run at the front of `s` that is free of `c`. */
  function RunWithout(s: string, c: char): (n: nat)
    ensures n <= |s|
  {
    if s != "" && s[0] != c then 1 + RunWithout(s[1..], c) else 0
  }

  /** The length of `c…c` at the front of `s`: text between two marks, its first character neither the mark nor, for em, a space. */
  function MarkedSpan(s: string, c: char, spaceAllowed: bool): (n: nat)
    ensures n <= |s|
  {
    if |s| < 3 || s[0] != c || s[1] == c || (!spaceAllowed && IsSpace(s[1])) then 0
    else
      var inside := RunWithout(s[1..], c);
      if 1 + inside < |s| then inside + 2 else 0
  }

  /** The length of `**…**` at the front of `s`. */
  function StrongSpan(s: string): (n: nat)
    ensures n <= |s|
  {
    if !StartsWith(s, "**") then 0
    else
      var inside := RunWithout(s[2..], '*');
      if inside >= 1 && inside + 4 <= |s| && s[inside + 3] == '*' then inside + 4 else 0
  }

  /** The length of the code, strong or em span at the front of `s`, 0 when there is none. */
  function Span(s: string): (n: nat)
    ensures n <= |s|
  {
    var code, strong := MarkedSpan(s, '`', true), StrongSpan(s);
    var star, line := MarkedSpan(s, '*', false), MarkedSpan(s, '_', false);
    if code > 0 then code else if strong > 0 then strong else if star > 0 then star else line
  }

  /** The line split at its spans, `chunk` being the plain text seen since the last one. */
  function Pieces(s: string, chunk: string): seq<string>
    decreases |s|
  {
    var n := Span(s);
    if s == "" then AfterChunk(chunk, [])
    else if n > 0 then AfterChunk(chunk, AfterChunk(s[..n], Pieces(s[n..], "")))
    else Pieces(s[1..], chunk + [s[0]])
  }

  /** The pieces after one more, which is dropped when it is empty. */
  function AfterChunk(chunk: string, pieces: seq<string>): seq<string> {
    if chunk == "" then pieces else [chunk] + pieces
  }

  predicate BreaksLine(c: char) {
    c == '\n' || c == '\r' || c == '\U{2028}' || c == '\U{2029}'
  }

  /** Text between two like marks, on one line. */
  predicate LooksEm(piece: string) {
    && |piece| > 2 && (piece[0] == '*' || piece[0] == '_') && piece[|piece| - 1] == piece[0]
    && forall i :: 0 < i < |piece| - 1 ==> !BreaksLine(piece[i])
  }

  function PartOf(piece: string): Part {
    var n := |piece|;
    if n > 2 && piece[0] == '`' && piece[n - 1] == '`' then CodePart(piece[1..n - 1])
    else if n > 4 && piece[..2] == "**" && piece[n - 2..] == "**" then Strong(piece[2..n - 2])
    else if LooksEm(piece) then Em(piece[1..n - 1])
    else Text(piece)
  }

  function PartsOf(pieces: seq<string>): (parts: seq<Part>)
    ensures |parts| == |pieces|
  {
    if pieces == [] then [] else [PartOf(pieces[0])] + PartsOf(pieces[1..])
  }

  /** The plain text, code, strong and em parts of one line. */
  function PlainParts(text: string): seq<Part> {
    PartsOf(Pieces(text, ""))
  }

  // ---- links ----

  const LABEL_MAX := 1000
  const TARGET_MAX := 2048

  predicate InLabel(c: char) {
    c != '[' && c != ']' && c != '\n'
  }

  predicate InTarget(c: char) {
    !IsSpace(c) && c != ')'
  }

  function LabelRun(s: string): (n: nat)
    ensures n <= |s|
  {
    if s != "" && InLabel(s[0]) then 1 + LabelRun(s[1..]) else 0
  }

  function TargetRun(s: string): (n: nat)
    ensures n <= |s|
  {
    if s != "" && InTarget(s[0]) then 1 + TargetRun(s[1..]) else 0
  }

  function SchemeOf(s: string): (n: nat)
    ensures n <= |s|
  {
    if StartsWith(s, "https://") then 8 else if StartsWith(s, "http://") then 7 else 0
  }

  datatype Found = Found(caption: string, href: string)

  /** The `http(s)://…` target at the front of `s`, the closing parenthesis right after it. */
  function HrefAt(s: string): (href: Option<string>)
    ensures href.Some? ==> |href.value| < |s| && s[..|href.value|] == href.value && s[|href.value|] == ')'
  {
    var scheme := SchemeOf(s);
    var run := TargetRun(s[scheme..]);
    var end := scheme + run;
    if scheme == 0 || run < 1 || run > TARGET_MAX || end >= |s| || s[end] != ')' then None else Some(s[..end])
  }

  /** The `[caption](http(s)://…)` at the front of `s`. */
  function LinkAt(s: string): (found: Option<Found>)
    ensures found.Some? ==> |LinkText(found.value)| <= |s|
  {
    if s == "" || s[0] != '[' then None
    else
      var caption := LabelRun(s[1..]);
      var rest := s[1 + caption..];
      if caption < 1 || caption > LABEL_MAX || !StartsWith(rest, "](") then None
      else
        var href := HrefAt(rest[2..]);
        if href.None? then None else Some(Found(s[1..1 + caption], href.value))
  }

  lemma {:induction false} FrontOf(s: string, front: string, rest: string)
    requires |front| <= |s| && s[..|front|] == front && rest == s[|front|..]
    ensures forall n :: 0 <= n <= |rest| ==> s[..|front| + n] == front + rest[..n]
  {
  }

  lemma {:induction false} LabelIsWritten(s: string)
    requires LinkAt(s).Some?
    ensures var front := ['['] + LinkAt(s).value.caption + "](";
            |front| <= |s| && s[..|front|] == front && LinkAt(s).value.href == HrefAt(s[|front|..]).GetOr("") && HrefAt(s[|front|..]).Some?
  {
    var caption := LinkAt(s).value.caption;
    var rest := s[1 + |caption|..];
    FrontOf(s, ['['] + caption, rest);
    assert rest[..2] == "](";
    assert s[..|caption| + 3] == ['['] + caption + rest[..2];
    assert rest[2..] == s[|caption| + 3..];
  }

  /** The link found at the front of a text is written there. */
  lemma {:induction false} LinkIsWritten(s: string)
    requires LinkAt(s).Some?
    ensures LinkText(LinkAt(s).value) == s[..|LinkText(LinkAt(s).value)|]
  {
    var found := LinkAt(s).value;
    var front := ['['] + found.caption + "](";
    LabelIsWritten(s);
    HrefIsWritten(s, front, s[|front|..], found.href);
    assert LinkText(found) == front + (found.href + [')']);
  }

  lemma {:induction false} HrefIsWritten(s: string, front: string, rest: string, href: string)
    requires |front| <= |s| && s[..|front|] == front && rest == s[|front|..]
    requires HrefAt(rest) == Some(href)
    ensures |front| + |href| + 1 <= |s| && s[..|front| + |href| + 1] == front + (href + [')'])
  {
    var n := |href| + 1;
    assert rest[..n] == href + [')'];
    assert s[..|front| + n] == s[..|front|] + s[|front|..][..n];
  }

  /** A link as it is written. */
  function LinkText(found: Found): string {
    ['['] + found.caption + "](" + found.href + [')']
  }

  /** A link the pattern matches, with where it starts. */
  datatype Match = Match(at: nat, found: Found)

  function EndOf(link: Match): nat {
    link.at + |LinkText(link.found)|
  }

  /** The links of a text from `i` on, first to last, none overlapping another. */
  function Matches(text: string, i: nat): seq<Match>
    requires i <= |text|
    decreases |text| - i
  {
    if i == |text| then []
    else
      var found := LinkAt(text[i..]);
      if found.None? then Matches(text, i + 1)
      else
        var here := Match(i, found.value);
        [here] + Matches(text, EndOf(here))
  }

  /** Each match is written in the text where it is said to be, from `from` on and in order. */
  ghost predicate AreMatches(text: string, from: nat, matches: seq<Match>)
    decreases |matches|
  {
    matches != [] ==>
      && from <= matches[0].at && EndOf(matches[0]) <= |text|
      && text[matches[0].at..EndOf(matches[0])] == LinkText(matches[0].found)
      && AreMatches(text, EndOf(matches[0]), matches[1..])
  }

  lemma {:induction false} MatchesAreMatches(text: string, i: nat, from: nat)
    requires from <= i <= |text|
    ensures AreMatches(text, from, Matches(text, i))
    decreases |text| - i
  {
    if i < |text| {
      var found := LinkAt(text[i..]);
      if found.None? {
        MatchesAreMatches(text, i + 1, from);
      } else {
        var here := Match(i, found.value);
        MatchIsWritten(text, i);
        MatchesAreMatches(text, EndOf(here), EndOf(here));
        MatchGoesFirst(text, from, here, Matches(text, EndOf(here)));
      }
    }
  }

  lemma {:induction false} MatchIsWritten(text: string, i: nat)
    requires i < |text| && LinkAt(text[i..]).Some?
    ensures var here := Match(i, LinkAt(text[i..]).value);
            EndOf(here) <= |text| && text[i..EndOf(here)] == LinkText(here.found)
  {
    LinkIsWritten(text[i..]);
    var n := |LinkText(LinkAt(text[i..]).value)|;
    assert text[i..][..n] == text[i..i + n];
  }

  lemma {:induction false} MatchGoesFirst(text: string, from: nat, here: Match, rest: seq<Match>)
    requires from <= here.at && EndOf(here) <= |text| && text[here.at..EndOf(here)] == LinkText(here.found)
    requires AreMatches(text, EndOf(here), rest)
    ensures AreMatches(text, from, [here] + rest)
  {
    assert ([here] + rest)[1..] == rest;
  }

  /** What stands between `from` and `to` as a plain part, nothing when nothing does. */
  function PlainBetween(text: string, from: nat, to: nat): seq<Part>
    requires from <= to <= |text|
  {
    if from < to then [Text(text[from..to])] else []
  }

  /** The parts of a text from `from` on: its accepted links, and the text around them. */
  function LinkPartsFrom(text: string, from: nat, matches: seq<Match>, accepts: string -> bool): seq<Part>
    requires from <= |text| && AreMatches(text, from, matches)
    decreases |matches|
  {
    if matches == [] then PlainBetween(text, from, |text|)
    else
      var first, rest := matches[0], matches[1..];
      if !accepts(first.found.href) then
        Relaxed(text, from, first, rest);
        LinkPartsFrom(text, from, rest, accepts)
      else
        PlainBetween(text, from, first.at) + [Link(first.found.caption, first.found.href)]
        + LinkPartsFrom(text, EndOf(first), rest, accepts)
  }

  lemma {:induction false} Relaxed(text: string, from: nat, first: Match, rest: seq<Match>)
    requires from <= EndOf(first) && AreMatches(text, EndOf(first), rest)
    ensures AreMatches(text, from, rest)
  {
  }

  /** A walk over the links has split `parts` off a text, `from` and `matches` still to come. */
  ghost predicate Walked(parts: seq<Part>, all: seq<Part>, text: string, from: nat, matches: seq<Match>, accepts: string -> bool) {
    && from <= |text| && AreMatches(text, from, matches)
    && parts + LinkPartsFrom(text, from, matches, accepts) == all
  }

  lemma {:induction false} WalkSkips(parts: seq<Part>, all: seq<Part>, text: string, from: nat, matches: seq<Match>, accepts: string -> bool)
    requires matches != [] && Walked(parts, all, text, from, matches, accepts)
    requires !accepts(matches[0].found.href)
    ensures Walked(parts, all, text, from, matches[1..], accepts)
  {
    Relaxed(text, from, matches[0], matches[1..]);
  }

  lemma {:induction false} WalkTakes(parts: seq<Part>, all: seq<Part>, text: string, from: nat, matches: seq<Match>, accepts: string -> bool)
    requires matches != [] && Walked(parts, all, text, from, matches, accepts)
    requires accepts(matches[0].found.href)
    ensures Walked(parts + PlainBetween(text, from, matches[0].at) + [Link(matches[0].found.caption, matches[0].found.href)],
                   all, text, EndOf(matches[0]), matches[1..], accepts)
  {
    var plain, link := PlainBetween(text, from, matches[0].at), [Link(matches[0].found.caption, matches[0].found.href)];
    var rest := LinkPartsFrom(text, EndOf(matches[0]), matches[1..], accepts);
    assert parts + (plain + link + rest) == parts + plain + link + rest;
  }

  lemma {:induction false} WalkEnds(parts: seq<Part>, all: seq<Part>, text: string, from: nat, matches: seq<Match>, accepts: string -> bool)
    requires matches == [] && Walked(parts, all, text, from, matches, accepts)
    ensures all == if from < |text| then parts + [Text(text[from..])] else parts
  {
    assert text[from..|text|] == text[from..];
  }

  /** Splits one plain text part around its links; a link whose target is refused stays literal text. */
  method LinkParts(text: string, accepts: string -> bool) returns (parts: seq<Part>)
    ensures AreMatches(text, 0, Matches(text, 0))
    ensures parts == LinkPartsFrom(text, 0, Matches(text, 0), accepts)
  {
    MatchesAreMatches(text, 0, 0);
    var matches := Matches(text, 0);
    ghost var all := LinkPartsFrom(text, 0, matches, accepts);
    parts := [];
    var from: nat := 0;
    assert matches[0..] == matches;
    for k := 0 to |matches|
      invariant Walked(parts, all, text, from, matches[k..], accepts)
    {
      var next := matches[k];
      assert matches[k..][0] == next && matches[k..][1..] == matches[k + 1..];
      if accepts(next.found.href) {
        WalkTakes(parts, all, text, from, matches[k..], accepts);
        if next.at > from {
          parts := parts + [Text(text[from..next.at])];
        }
        parts := parts + [Link(next.found.caption, next.found.href)];
        from := EndOf(next);
      } else {
        WalkSkips(parts, all, text, from, matches[k..], accepts);
      }
    }
    WalkEnds(parts, all, text, from, matches[|matches|..], accepts);
    if from < |text| {
      parts := parts + [Text(text[from..])];
    }
  }

  // ---- rich lines ----

  /** The parts with each plain text one split around its links. */
  function RichParts(parts: seq<Part>, accepts: string -> bool): seq<Part> {
    if parts == [] then [] else RichPart(parts[0], accepts) + RichParts(parts[1..], accepts)
  }

  function RichPart(part: Part, accepts: string -> bool): seq<Part> {
    if part.Text? then
      MatchesAreMatches(part.text, 0, 0);
      LinkPartsFrom(part.text, 0, Matches(part.text, 0), accepts)
    else [part]
  }

  /** The parts of one line of markdown; `accepts` says which link targets parse as web addresses. */
  function InlineParts(text: string, rich: bool, accepts: string -> bool): seq<Part> {
    if rich then RichParts(PlainParts(text), accepts) else PlainParts(text)
  }

  // ---- nothing of the line is lost ----

  /** A part as it is written, emphasis between `em` marks. */
  function Written(part: Part, em: char): string {
    match part
    case Text(t) => t
    case CodePart(t) => "`" + t + "`"
    case Strong(t) => "**" + t + "**"
    case Em(t) => [em] + t + [em]
    case Link(t, href) => "[" + t + "](" + href + ")"
  }

  /** Whether `s` is the part with its delimiters put back, emphasis between either mark. */
  predicate Spells(part: Part, s: string) {
    s == Written(part, '*') || s == Written(part, '_')
  }

  function WrittenLength(part: Part): nat {
    match part
    case Text(t) => |t|
    case CodePart(t) => |t| + 2
    case Strong(t) => |t| + 4
    case Em(t) => |t| + 2
    case Link(t, href) => |t| + |href| + 4
  }

  /** Whether `s` is the parts written one after another. */
  predicate Writes(parts: seq<Part>, s: string)
    decreases |parts|
  {
    if parts == [] then s == ""
    else
      var n := WrittenLength(parts[0]);
      n <= |s| && Spells(parts[0], s[..n]) && Writes(parts[1..], s[n..])
  }

  lemma {:induction false} WritesTogether(p: seq<Part>, s: string, q: seq<Part>, t: string)
    requires Writes(p, s) && Writes(q, t)
    ensures Writes(p + q, s + t)
    decreases |p|
  {
    if p == [] {
      assert p + q == q && s + t == t;
    } else {
      var n := WrittenLength(p[0]);
      WritesTogether(p[1..], s[n..], q, t);
      assert (p + q)[1..] == p[1..] + q;
      FrontStays(s, t, n);
    }
  }

  lemma {:induction false} FrontStays(s: string, t: string, n: nat)
    requires n <= |s|
    ensures (s + t)[..n] == s[..n] && (s + t)[n..] == s[n..] + t
  {
  }

  lemma {:induction false} WritesAcross(p: seq<Part>, q: seq<Part>, s: string, a: nat, b: nat, c: nat)
    requires a <= b <= c <= |s| && Writes(p, s[a..b]) && Writes(q, s[b..c])
    ensures Writes(p + q, s[a..c])
  {
    WritesTogether(p, s[a..b], q, s[b..c]);
    assert s[a..b] + s[b..c] == s[a..c];
  }

  lemma {:induction false} WritesOne(part: Part, s: string)
    requires Spells(part, s)
    ensures Writes([part], s)
  {
    assert s[..|s|] == s && s[|s|..] == "";
  }

  lemma {:induction false} PieceIsSpelled(piece: string)
    ensures Spells(PartOf(piece), piece)
  {
    var n := |piece|;
    if PartOf(piece).CodePart? {
      assert piece == "`" + piece[1..n - 1] + "`";
    } else if PartOf(piece).Strong? {
      assert piece == "**" + piece[2..n - 2] + "**";
    } else if PartOf(piece).Em? {
      assert piece == [piece[0]] + piece[1..n - 1] + [piece[0]];
    }
  }

  function Joined(pieces: seq<string>): string {
    if pieces == [] then "" else pieces[0] + Joined(pieces[1..])
  }

  lemma {:induction false} JoinedAfterChunk(chunk: string, pieces: seq<string>)
    ensures Joined(AfterChunk(chunk, pieces)) == chunk + Joined(pieces)
  {
    if chunk != "" {
      assert ([chunk] + pieces)[1..] == pieces;
    }
  }

  lemma {:induction false} PiecesMakeText(s: string, chunk: string)
    ensures Joined(Pieces(s, chunk)) == chunk + s
    decreases |s|
  {
    var n := Span(s);
    if s == "" {
      JoinedAfterChunk(chunk, []);
    } else if n > 0 {
      PiecesMakeText(s[n..], "");
      SpanMakesText(chunk, s, n, Pieces(s[n..], ""));
    } else {
      PiecesMakeText(s[1..], chunk + [s[0]]);
      CharMakesText(chunk, s);
    }
  }

  lemma {:induction false} SpanMakesText(chunk: string, s: string, n: nat, rest: seq<string>)
    requires n <= |s| && Joined(rest) == "" + s[n..]
    ensures Joined(AfterChunk(chunk, AfterChunk(s[..n], rest))) == chunk + s
  {
    JoinedAfterChunk(s[..n], rest);
    JoinedAfterChunk(chunk, AfterChunk(s[..n], rest));
    assert "" + s[n..] == s[n..] && s == s[..n] + s[n..];
  }

  lemma {:induction false} CharMakesText(chunk: string, s: string)
    requires s != ""
    ensures chunk + [s[0]] + s[1..] == chunk + s
  {
  }

  lemma {:induction false} PiecesAreWritten(pieces: seq<string>)
    ensures Writes(PartsOf(pieces), Joined(pieces))
  {
    if pieces != [] {
      PiecesAreWritten(pieces[1..]);
      PieceIsWritten(pieces[0], PartsOf(pieces[1..]), Joined(pieces[1..]));
    }
  }

  lemma {:induction false} PieceIsWritten(piece: string, rest: seq<Part>, s: string)
    requires Writes(rest, s)
    ensures Writes([PartOf(piece)] + rest, piece + s)
  {
    PieceIsSpelled(piece);
    WritesOne(PartOf(piece), piece);
    WritesTogether([PartOf(piece)], piece, rest, s);
  }

  lemma {:induction false} LinkPartsAreWritten(text: string, from: nat, matches: seq<Match>, accepts: string -> bool)
    requires from <= |text| && AreMatches(text, from, matches)
    ensures Writes(LinkPartsFrom(text, from, matches, accepts), text[from..])
    decreases |matches|
  {
    if matches == [] {
      PlainIsWritten(text, from, |text|);
      assert text[from..|text|] == text[from..];
    } else if !accepts(matches[0].found.href) {
      Relaxed(text, from, matches[0], matches[1..]);
      LinkPartsAreWritten(text, from, matches[1..], accepts);
    } else {
      LinkPartsAreWritten(text, EndOf(matches[0]), matches[1..], accepts);
      LinkIsPlaced(text, from, matches[0], LinkPartsFrom(text, EndOf(matches[0]), matches[1..], accepts));
    }
  }

  lemma {:induction false} LinkIsPlaced(text: string, from: nat, first: Match, rest: seq<Part>)
    requires from <= first.at && EndOf(first) <= |text| && text[first.at..EndOf(first)] == LinkText(first.found)
    requires Writes(rest, text[EndOf(first)..])
    ensures Writes(PlainBetween(text, from, first.at) + [Link(first.found.caption, first.found.href)] + rest, text[from..])
  {
    var link, end := Link(first.found.caption, first.found.href), EndOf(first);
    var plain := PlainBetween(text, from, first.at);
    LinkIsWrittenAlone(first.found);
    PlainIsWritten(text, from, first.at);
    WritesAcross(plain, [link], text, from, first.at, end);
    assert text[end..] == text[end..|text|] && text[from..] == text[from..|text|];
    WritesAcross(plain + [link], rest, text, from, end, |text|);
  }

  lemma {:induction false} LinkIsWrittenAlone(found: Found)
    ensures Writes([Link(found.caption, found.href)], LinkText(found))
  {
    WritesOne(Link(found.caption, found.href), LinkText(found));
  }

  lemma {:induction false} PlainIsWritten(text: string, from: nat, to: nat)
    requires from <= to <= |text|
    ensures Writes(PlainBetween(text, from, to), text[from..to])
  {
    if from < to {
      WritesOne(Text(text[from..to]), text[from..to]);
    }
  }

  lemma {:induction false} RichPartsAreWritten(parts: seq<Part>, s: string, accepts: string -> bool)
    requires Writes(parts, s)
    ensures Writes(RichParts(parts, accepts), s)
    decreases |parts|
  {
    if parts != [] {
      var n := WrittenLength(parts[0]);
      RichPartsAreWritten(parts[1..], s[n..], accepts);
      RichPartGoesFirst(parts[0], s, n, RichParts(parts[1..], accepts), accepts);
    }
  }

  lemma {:induction false} RichPartGoesFirst(part: Part, s: string, n: nat, rest: seq<Part>, accepts: string -> bool)
    requires n <= |s| && Spells(part, s[..n]) && Writes(rest, s[n..])
    ensures Writes(RichPart(part, accepts) + rest, s)
  {
    RichPartIsWritten(part, s[..n], accepts);
    WritesTogether(RichPart(part, accepts), s[..n], rest, s[n..]);
    assert s[..n] + s[n..] == s;
  }

  lemma {:induction false} RichPartIsWritten(part: Part, s: string, accepts: string -> bool)
    requires Spells(part, s)
    ensures Writes(RichPart(part, accepts), s)
  {
    if part.Text? {
      MatchesAreMatches(s, 0, 0);
      LinkPartsAreWritten(s, 0, Matches(s, 0), accepts);
      assert s[0..] == s;
    } else {
      WritesOne(part, s);
    }
  }

  /** Putting every part's delimiters back and joining the parts gives the line, in either mode, whatever targets are refused. */
  lemma {:induction false} SplittingLosesNothing(text: string, rich: bool, accepts: string -> bool)
    ensures Writes(InlineParts(text, rich, accepts), text)
  {
    PiecesMakeText(text, "");
    assert "" + text == text;
    PiecesAreWritten(Pieces(text, ""));
    if rich {
      RichPartsAreWritten(PlainParts(text), text, accepts);
    }
  }

  // ---- which links are shown ----

  /** The links among the parts, in order. */
  function LinksAmong(parts: seq<Part>): seq<Part> {
    if parts == [] then []
    else if parts[0].Link? then [parts[0]] + LinksAmong(parts[1..]) else LinksAmong(parts[1..])
  }

  function LinksAccepted(matches: seq<Match>, accepts: string -> bool): seq<Part> {
    if matches == [] then []
    else if accepts(matches[0].found.href) then
      [Link(matches[0].found.caption, matches[0].found.href)] + LinksAccepted(matches[1..], accepts)
    else LinksAccepted(matches[1..], accepts)
  }

  lemma {:induction false} LinksAmongJoined(p: seq<Part>, q: seq<Part>)
    ensures LinksAmong(p + q) == LinksAmong(p) + LinksAmong(q)
    decreases |p|
  {
    if p == [] {
      assert p + q == q;
    } else {
      LinksAmongJoined(p[1..], q);
      assert (p + q)[1..] == p[1..] + q;
    }
  }

  /** A text part shows exactly the accepted links the pattern finds in it, in order. */
  lemma {:induction false} AcceptedLinksAreShown(text: string, from: nat, matches: seq<Match>, accepts: string -> bool)
    requires from <= |text| && AreMatches(text, from, matches)
    ensures LinksAmong(LinkPartsFrom(text, from, matches, accepts)) == LinksAccepted(matches, accepts)
    decreases |matches|
  {
    if matches != [] {
      var first, rest := matches[0], matches[1..];
      if accepts(first.found.href) {
        AcceptedLinksAreShown(text, EndOf(first), rest, accepts);
        var plain, link := PlainBetween(text, from, first.at), Link(first.found.caption, first.found.href);
        LinksAmongJoined(plain, [link]);
        LinksAmongJoined(plain + [link], LinkPartsFrom(text, EndOf(first), rest, accepts));
      } else {
        Relaxed(text, from, first, rest);
        AcceptedLinksAreShown(text, from, rest, accepts);
      }
    }
  }

  /** Whether position `i` of the text lies inside one of the matches. */
  predicate Covers(matches: seq<Match>, i: nat) {
    matches != [] && (matches[0].at <= i < EndOf(matches[0]) || Covers(matches[1..], i))
  }

  /** Wherever a link is written, it is found or lies inside one that is. */
  lemma {:induction false} NoLinkIsMissed(text: string, from: nat, i: nat)
    requires from <= i < |text| && LinkAt(text[i..]).Some?
    ensures Covers(Matches(text, from), i)
    decreases |text| - from
  {
    var found := LinkAt(text[from..]);
    if found.None? {
      NoLinkIsMissed(text, from + 1, i);
    } else {
      var here := Match(from, found.value);
      if i >= EndOf(here) {
        NoLinkIsMissed(text, EndOf(here), i);
        CoversAfter(here, Matches(text, EndOf(here)), i);
      }
    }
  }

  lemma {:induction false} CoversAfter(here: Match, rest: seq<Match>, i: nat)
    requires Covers(rest, i)
    ensures Covers([here] + rest, i)
  {
    assert ([here] + rest)[1..] == rest;
  }

  /** A part that may be shown: not empty, and a link only when its target is accepted. */
  predicate Fit(part: Part, accepts: string -> bool) {
    part.text != "" && (part.Link? ==> accepts(part.href))
  }

  predicate AllFit(parts: seq<Part>, accepts: string -> bool) {
    parts == [] || (Fit(parts[0], accepts) && AllFit(parts[1..], accepts))
  }

  lemma {:induction false} FitTogether(p: seq<Part>, q: seq<Part>, accepts: string -> bool)
    requires AllFit(p, accepts) && AllFit(q, accepts)
    ensures AllFit(p + q, accepts)
    decreases |p|
  {
    if p == [] {
      assert p + q == q;
    } else {
      FitTogether(p[1..], q, accepts);
      assert (p + q)[1..] == p[1..] + q;
    }
  }

  predicate NoneEmpty(pieces: seq<string>) {
    pieces == [] || (pieces[0] != "" && NoneEmpty(pieces[1..]))
  }

  lemma {:induction false} NoPieceIsEmpty(s: string, chunk: string)
    ensures NoneEmpty(Pieces(s, chunk))
    decreases |s|
  {
    var n := Span(s);
    if s == "" {
    } else if n > 0 {
      NoPieceIsEmpty(s[n..], "");
      NoneEmptyAfterChunk(s[..n], Pieces(s[n..], ""));
      NoneEmptyAfterChunk(chunk, AfterChunk(s[..n], Pieces(s[n..], "")));
    } else {
      NoPieceIsEmpty(s[1..], chunk + [s[0]]);
    }
  }

  lemma {:induction false} NoneEmptyAfterChunk(chunk: string, pieces: seq<string>)
    requires NoneEmpty(pieces)
    ensures NoneEmpty(AfterChunk(chunk, pieces))
  {
  }

  lemma {:induction false} PiecesFit(pieces: seq<string>, accepts: string -> bool)
    requires NoneEmpty(pieces)
    ensures AllFit(PartsOf(pieces), accepts)
  {
    if pieces != [] {
      PiecesFit(pieces[1..], accepts);
    }
  }

  predicate AllCaptioned(matches: seq<Match>) {
    matches == [] || (matches[0].found.caption != "" && AllCaptioned(matches[1..]))
  }

  lemma {:induction false} LinksHaveCaptions(text: string, i: nat)
    requires i <= |text|
    ensures AllCaptioned(Matches(text, i))
    decreases |text| - i
  {
    if i < |text| {
      var found := LinkAt(text[i..]);
      if found.None? {
        LinksHaveCaptions(text, i + 1);
      } else {
        LinksHaveCaptions(text, EndOf(Match(i, found.value)));
      }
    }
  }

  lemma {:induction false} LinkPartsFit(text: string, from: nat, matches: seq<Match>, accepts: string -> bool)
    requires from <= |text| && AreMatches(text, from, matches) && AllCaptioned(matches)
    ensures AllFit(LinkPartsFrom(text, from, matches, accepts), accepts)
    decreases |matches|
  {
    if matches != [] {
      var first, rest := matches[0], matches[1..];
      if accepts(first.found.href) {
        LinkPartsFit(text, EndOf(first), rest, accepts);
        var plain, link := PlainBetween(text, from, first.at), Link(first.found.caption, first.found.href);
        FitTogether(plain, [link], accepts);
        FitTogether(plain + [link], LinkPartsFrom(text, EndOf(first), rest, accepts), accepts);
      } else {
        Relaxed(text, from, first, rest);
        LinkPartsFit(text, from, rest, accepts);
      }
    }
  }

  lemma {:induction false} RichPartsFit(parts: seq<Part>, accepts: string -> bool)
    requires AllFit(parts, accepts)
    ensures AllFit(RichParts(parts, accepts), accepts)
    decreases |parts|
  {
    if parts != [] {
      RichPartsFit(parts[1..], accepts);
      if parts[0].Text? {
        MatchesAreMatches(parts[0].text, 0, 0);
        LinksHaveCaptions(parts[0].text, 0);
        LinkPartsFit(parts[0].text, 0, Matches(parts[0].text, 0), accepts);
      }
      FitTogether(RichPart(parts[0], accepts), RichParts(parts[1..], accepts), accepts);
    }
  }

  /** No part is empty, and no link is shown whose target was refused. */
  lemma {:induction false} OnlyAcceptedLinks(text: string, rich: bool, accepts: string -> bool)
    ensures AllFit(InlineParts(text, rich, accepts), accepts)
  {
    NoPieceIsEmpty(text, "");
    PiecesFit(Pieces(text, ""), accepts);
    if rich {
      RichPartsFit(PlainParts(text), accepts);
    }
  }
}

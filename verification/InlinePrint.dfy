// Writing inline parts as markdown and splitting the line again gives the same parts.
module InlinePrint {
  import opened Wrappers
  import opened Strings
  import opened MarkdownInline

  predicate IsMark(c: char) {
    c == '`' || c == '*' || c == '_'
  }

  predicate IsEmMark(c: char) {
    c == '*' || c == '_'
  }

  function WrittenAll(parts: seq<Part>, em: char): string {
    if parts == [] then "" else Written(parts[0], em) + WrittenAll(parts[1..], em)
  }

  predicate MarkFree(s: string) {
    s == "" || (!IsMark(s[0]) && MarkFree(s[1..]))
  }

  predicate Breakless(s: string) {
    forall c :: c in s ==> !BreaksLine(c)
  }

  /** A text that its marks can hold: not empty, free of the mark that ends it. */
  predicate Holds(part: Part, em: char) {
    match part
    case Text(t) => t != "" && MarkFree(t)
    case CodePart(t) => t != "" && '`' !in t
    case Strong(t) => t != "" && '*' !in t
    case Em(t) => t != "" && em !in t && !IsSpace(t[0]) && Breakless(t)
    case Link(_, _) => false
  }

  /** Parts that can be written one after another: no two texts in a row. */
  predicate Writable(parts: seq<Part>, em: char) {
    parts == [] ||
    (Holds(parts[0], em) && Writable(parts[1..], em) && (|parts| > 1 && parts[0].Text? ==> !parts[1].Text?))
  }

  function WrittenEach(parts: seq<Part>, em: char): seq<string> {
    if parts == [] then [] else [Written(parts[0], em)] + WrittenEach(parts[1..], em)
  }

  lemma {:induction false} RunStopsAtMark(inner: string, c: char, rest: string)
    requires c !in inner
    ensures RunWithout(inner + [c] + rest, c) == |inner|
  {
    var s := inner + [c] + rest;
    if inner == "" {
      assert s[0] == c;
    } else {
      assert s[0] == inner[0] && inner[0] in inner;
      assert s[1..] == inner[1..] + [c] + rest;
      RunStopsAtMark(inner[1..], c, rest);
    }
  }

  lemma {:induction false} MarkedSpanIsFound(inner: string, c: char, spaceAllowed: bool, rest: string)
    requires inner != "" && c !in inner && (spaceAllowed || !IsSpace(inner[0]))
    ensures MarkedSpan([c] + inner + [c] + rest, c, spaceAllowed) == |inner| + 2
  {
    var s := [c] + inner + [c] + rest;
    RunStopsAtMark(inner, c, rest);
    assert s[1..] == inner + [c] + rest;
    assert s[0] == c && s[1] == inner[0] && inner[0] in inner;
  }

  lemma {:induction false} StrongSpanIsFound(inner: string, rest: string)
    requires inner != "" && '*' !in inner
    ensures StrongSpan("**" + inner + "**" + rest) == |inner| + 4
  {
    var s := "**" + inner + "**" + rest;
    RunStopsAtMark(inner, '*', "*" + rest);
    assert s[2..] == inner + ['*'] + ("*" + rest);
    assert s[..2] == "**";
    assert s[|inner| + 3] == '*';
  }

  lemma {:induction false} CodeSpanIsFound(inner: string, rest: string)
    requires inner != "" && '`' !in inner
    ensures Span("`" + inner + "`" + rest) == |inner| + 2
  {
    MarkedSpanIsFound(inner, '`', true, rest);
  }

  lemma {:induction false} EmSpanIsFound(inner: string, em: char, rest: string)
    requires IsEmMark(em) && inner != "" && em !in inner && !IsSpace(inner[0])
    ensures Span([em] + inner + [em] + rest) == |inner| + 2
  {
    var s := [em] + inner + [em] + rest;
    MarkedSpanIsFound(inner, em, false, rest);
    assert s[0] == em && s[1] == inner[0] && inner[0] in inner;
    assert !StartsWith(s, "**");
  }

  lemma {:induction false} StrongIsSpan(inner: string, rest: string)
    requires inner != "" && '*' !in inner
    ensures Span("**" + inner + "**" + rest) == |inner| + 4
  {
    StrongSpanIsFound(inner, rest);
    assert ("**" + inner + "**" + rest)[0] == '*';
  }

  /** A written mark is found at the front of what follows from it, whole. */
  lemma {:induction false} WrittenMarkIsSpan(part: Part, em: char, rest: string)
    requires IsEmMark(em) && Holds(part, em) && !part.Text?
    ensures Span(Written(part, em) + rest) == |Written(part, em)| > 0
  {
    match part
    case CodePart(t) => CodeSpanIsFound(t, rest);
    case Strong(t) => StrongIsSpan(t, rest);
    case Em(t) => EmSpanIsFound(t, em, rest);
  }

  lemma {:induction false} NoMarkNoSpan(s: string)
    requires s != "" && !IsMark(s[0])
    ensures Span(s) == 0
  {
    assert !StartsWith(s, "**");
  }

  lemma {:induction false} CharPasses(c: char, rest: string, chunk: string)
    requires !IsMark(c)
    ensures Pieces([c] + rest, chunk) == Pieces(rest, chunk + [c])
  {
    NoMarkNoSpan([c] + rest);
    assert ([c] + rest)[1..] == rest;
  }

  lemma {:induction false} FirstMoves(chunk: string, t: string, rest: string)
    requires t != ""
    ensures t + rest == [t[0]] + (t[1..] + rest) && chunk + [t[0]] + t[1..] == chunk + t
  {
  }

  /** Text free of marks joins the plain text read so far. */
  lemma {:induction false} MarkFreeTextPasses(t: string, rest: string, chunk: string)
    requires MarkFree(t)
    ensures Pieces(t + rest, chunk) == Pieces(rest, chunk + t)
    decreases |t|
  {
    if t == "" {
      assert t + rest == rest && chunk + t == chunk;
    } else {
      FirstMoves(chunk, t, rest);
      CharPasses(t[0], t[1..] + rest, chunk);
      MarkFreeTextPasses(t[1..], rest, chunk + [t[0]]);
    }
  }

  lemma {:induction false} SpanIsAPiece(span: string, rest: string, chunk: string)
    requires span != "" && Span(span + rest) == |span|
    ensures Pieces(span + rest, chunk) == AfterChunk(chunk, [span] + Pieces(rest, ""))
  {
    var s := span + rest;
    assert s[..|span|] == span && s[|span|..] == rest;
  }

  /** Plain text read before writable parts that do not open with text is a piece of its own. */
  lemma {:induction false} ChunkIsAPiece(parts: seq<Part>, em: char, chunk: string)
    requires IsEmMark(em) && Writable(parts, em) && (parts != [] ==> !parts[0].Text?)
    ensures Pieces(WrittenAll(parts, em), chunk) == AfterChunk(chunk, Pieces(WrittenAll(parts, em), ""))
  {
    if parts != [] {
      var span, rest := Written(parts[0], em), WrittenAll(parts[1..], em);
      WrittenMarkIsSpan(parts[0], em, rest);
      SpanIsAPiece(span, rest, chunk);
      SpanIsAPiece(span, rest, "");
    }
  }

  lemma {:induction false} WrittenPieces(parts: seq<Part>, em: char)
    requires IsEmMark(em) && Writable(parts, em)
    ensures Pieces(WrittenAll(parts, em), "") == WrittenEach(parts, em)
  {
    if parts != [] {
      var first, rest := Written(parts[0], em), WrittenAll(parts[1..], em);
      WrittenPieces(parts[1..], em);
      if parts[0].Text? {
        MarkFreeTextPasses(first, rest, "");
        assert "" + first == first;
        ChunkIsAPiece(parts[1..], em, first);
      } else {
        WrittenMarkIsSpan(parts[0], em, rest);
        SpanIsAPiece(first, rest, "");
      }
    }
  }

  lemma {:induction false} PartOfCode(t: string)
    requires t != ""
    ensures PartOf("`" + t + "`") == CodePart(t)
  {
    var piece := "`" + t + "`";
    assert piece[1..|piece| - 1] == t;
  }

  lemma {:induction false} PartOfStrong(t: string)
    requires t != ""
    ensures PartOf("**" + t + "**") == Strong(t)
  {
    var piece := "**" + t + "**";
    assert piece[0] == '*' && piece[..2] == "**" && piece[|piece| - 2..] == "**";
    assert piece[2..|piece| - 2] == t;
  }

  lemma {:induction false} PartOfEm(t: string, em: char)
    requires IsEmMark(em) && t != "" && em !in t && Breakless(t)
    ensures PartOf([em] + t + [em]) == Em(t)
  {
    var piece := [em] + t + [em];
    assert piece[1] == t[0] && t[0] in t;
    assert piece[1..|piece| - 1] == t;
    forall i | 0 < i < |piece| - 1
      ensures !BreaksLine(piece[i])
    {
      assert piece[i] == t[i - 1] && t[i - 1] in t;
    }
    assert piece[..2][0] == em && piece[..2][1] == t[0];
    assert piece[..2] != "**";
  }

  lemma {:induction false} WrittenPartIsRead(part: Part, em: char)
    requires IsEmMark(em) && Holds(part, em)
    ensures PartOf(Written(part, em)) == part
  {
    match part
    case Text(t) =>
      assert |t| > 2 ==> t[..2][0] == t[0];
    case CodePart(t) => PartOfCode(t);
    case Strong(t) => PartOfStrong(t);
    case Em(t) => PartOfEm(t, em);
  }

  lemma {:induction false} WrittenPartsAreRead(parts: seq<Part>, em: char)
    requires IsEmMark(em) && Writable(parts, em)
    ensures PartsOf(WrittenEach(parts, em)) == parts
  {
    if parts != [] {
      WrittenPartIsRead(parts[0], em);
      WrittenPartsAreRead(parts[1..], em);
      var rest := WrittenEach(parts[1..], em);
      assert ([Written(parts[0], em)] + rest)[1..] == rest;
    }
  }

  /** Writing parts on one line and splitting it gives the parts back. */
  lemma {:induction false} WrittenPartsComeBack(parts: seq<Part>, em: char)
    requires IsEmMark(em) && Writable(parts, em)
    ensures PlainParts(WrittenAll(parts, em)) == parts
  {
    WrittenPieces(parts, em);
    WrittenPartsAreRead(parts, em);
  }

  // ---- links ----

  /** Text no link can start in. */
  predicate BracketFree(s: string) {
    s == "" || (s[0] != '[' && BracketFree(s[1..]))
  }

  predicate AllInLabel(s: string) {
    s == "" || (InLabel(s[0]) && AllInLabel(s[1..]))
  }

  predicate AllInTarget(s: string) {
    s == "" || (InTarget(s[0]) && AllInTarget(s[1..]))
  }

  /** A link as the pattern reads it, its target accepted and free of marks. */
  predicate IsWritableLink(found: Found, accepts: string -> bool) {
    var scheme := SchemeOf(found.href);
    && 1 <= |found.caption| <= LABEL_MAX && AllInLabel(found.caption) && MarkFree(found.caption)
    && scheme > 0 && 1 <= |found.href| - scheme <= TARGET_MAX && AllInTarget(found.href[scheme..]) && MarkFree(found.href)
    && accepts(found.href)
  }

  /** A part that a rich line can hold: text holds no bracket, a link is one the pattern reads. */
  predicate RichHolds(part: Part, em: char, accepts: string -> bool) {
    match part
    case Link(t, href) => IsWritableLink(Found(t, href), accepts)
    case Text(t) => Holds(part, em) && BracketFree(t)
    case _ => Holds(part, em)
  }

  predicate RichWritable(parts: seq<Part>, em: char, accepts: string -> bool) {
    parts == [] ||
    (&& RichHolds(parts[0], em, accepts) && RichWritable(parts[1..], em, accepts)
     && (|parts| > 1 && parts[0].Text? ==> !parts[1].Text?))
  }

  predicate IsPlain(part: Part) {
    part.Text? || part.Link?
  }

  /** The parts as plain mode splits them: texts and links next to each other are one text. */
  function Grouped(parts: seq<Part>, em: char): seq<Part> {
    if parts == [] then []
    else
      var rest := Grouped(parts[1..], em);
      if !IsPlain(parts[0]) then [parts[0]] + rest
      else if rest != [] && rest[0].Text? then [Text(Written(parts[0], em) + rest[0].text)] + rest[1..]
      else [Text(Written(parts[0], em))] + rest
  }

  // -- reading a written link --

  lemma {:induction false} LabelRunStops(t: string, rest: string)
    requires AllInLabel(t) && rest != "" && !InLabel(rest[0])
    ensures LabelRun(t + rest) == |t|
  {
    if t == "" {
      assert t + rest == rest;
    } else {
      LabelRunStops(t[1..], rest);
      assert (t + rest)[1..] == t[1..] + rest;
    }
  }

  lemma {:induction false} TargetRunStops(t: string, rest: string)
    requires AllInTarget(t) && rest != "" && !InTarget(rest[0])
    ensures TargetRun(t + rest) == |t|
  {
    if t == "" {
      assert t + rest == rest;
    } else {
      TargetRunStops(t[1..], rest);
      assert (t + rest)[1..] == t[1..] + rest;
    }
  }

  lemma {:induction false} SchemeStays(href: string, rest: string)
    requires SchemeOf(href) > 0
    ensures SchemeOf(href + rest) == SchemeOf(href)
  {
    var scheme := SchemeOf(href);
    assert (href + rest)[..scheme] == href[..scheme];
    if scheme == 7 {
      assert href[..7] == "http://" && (href + rest)[4] == ':';
      assert "https://"[4] == 's';
    }
  }

  lemma {:induction false} WrittenHrefIsRead(href: string, rest: string)
    requires SchemeOf(href) > 0 && 1 <= |href| - SchemeOf(href) <= TARGET_MAX && AllInTarget(href[SchemeOf(href)..])
    ensures HrefAt(href + ")" + rest) == Some(href)
  {
    var scheme, s := SchemeOf(href), href + ")" + rest;
    assert s == href + (")" + rest);
    SchemeStays(href, ")" + rest);
    TargetRunStops(href[scheme..], ")" + rest);
    assert s[scheme..] == href[scheme..] + (")" + rest);
    assert s[|href|] == ')' && s[..|href|] == href;
  }

  lemma {:induction false} LinkTextTaken(found: Found, rest: string)
    ensures var s, after := LinkText(found) + rest, "](" + (found.href + ")" + rest);
            && s[0] == '[' && s[1..] == found.caption + after
            && StartsWith(after, "](") && after[2..] == found.href + ")" + rest && !InLabel(after[0])
  {
    var s, after := LinkText(found) + rest, "](" + (found.href + ")" + rest);
    assert s[1..] == found.caption + after;
    assert after[..2] == "](";
  }

  lemma {:induction false} LinkFromRuns(s: string, found: Found, after: string)
    requires s != "" && s[0] == '[' && s[1..] == found.caption + after && 1 <= |found.caption| <= LABEL_MAX
    requires LabelRun(s[1..]) == |found.caption| && StartsWith(after, "](") && HrefAt(after[2..]) == Some(found.href)
    ensures LinkAt(s) == Some(found)
  {
    Halves(s, found.caption, after);
  }

  lemma {:induction false} Halves(s: string, caption: string, after: string)
    requires s != "" && s[1..] == caption + after
    ensures s[1 + |caption|..] == after && s[1..1 + |caption|] == caption
  {
    assert s[1 + |caption|..] == s[1..][|caption|..] && s[1..1 + |caption|] == s[1..][..|caption|];
  }

  lemma {:induction false} WrittenLinkIsRead(found: Found, rest: string, accepts: string -> bool)
    requires IsWritableLink(found, accepts)
    ensures LinkAt(LinkText(found) + rest) == Some(found)
  {
    var after := "](" + (found.href + ")" + rest);
    LinkTextTaken(found, rest);
    LabelRunStops(found.caption, after);
    WrittenHrefIsRead(found.href, rest);
    LinkFromRuns(LinkText(found) + rest, found, after);
  }

  // -- links found in any way that reads what is written --

  /** A way to find a link at the front of a text: what it finds is written there and opens with a bracket. */
  ghost predicate IsFinder(find: string -> Option<Found>) {
    forall s: string {:trigger find(s)} :: find(s).Some? ==>
      s != "" && s[0] == '[' && |LinkText(find(s).value)| <= |s| && s[..|LinkText(find(s).value)|] == LinkText(find(s).value)
  }

  /** The links of a text from `i` on. */
  ghost function MatchesBy(find: string -> Option<Found>, text: string, i: nat): seq<Match>
    requires i <= |text| && IsFinder(find)
    decreases |text| - i
  {
    if i == |text| then []
    else
      var found := find(text[i..]);
      if found.None? then MatchesBy(find, text, i + 1)
      else [Match(i, found.value)] + MatchesBy(find, text, EndOf(Match(i, found.value)))
  }

  lemma {:induction false} MatchesByAreMatches(find: string -> Option<Found>, text: string, i: nat, from: nat)
    requires from <= i <= |text| && IsFinder(find)
    ensures AreMatches(text, from, MatchesBy(find, text, i))
    decreases |text| - i
  {
    if i < |text| {
      var found := find(text[i..]);
      if found.None? {
        MatchesByAreMatches(find, text, i + 1, from);
      } else {
        var here := Match(i, found.value);
        assert text[i..][..|LinkText(found.value)|] == text[i..EndOf(here)];
        MatchesByAreMatches(find, text, EndOf(here), EndOf(here));
        MatchGoesFirst(text, from, here, MatchesBy(find, text, EndOf(here)));
      }
    }
  }

  /** One text part split around its links. */
  ghost function SplitText(find: string -> Option<Found>, text: string, accepts: string -> bool): seq<Part>
    requires IsFinder(find)
  {
    MatchesByAreMatches(find, text, 0, 0);
    LinkPartsFrom(text, 0, MatchesBy(find, text, 0), accepts)
  }

  function Shifted(matches: seq<Match>, offset: nat): seq<Match> {
    if matches == [] then [] else [Match(matches[0].at + offset, matches[0].found)] + Shifted(matches[1..], offset)
  }

  lemma {:induction false} ShiftedFirst(first: Match, rest: seq<Match>, offset: nat)
    ensures Shifted([first] + rest, offset) == [Match(first.at + offset, first.found)] + Shifted(rest, offset)
  {
    assert ([first] + rest)[1..] == rest;
  }

  /** The links of a text after another are its own, moved along. */
  lemma {:induction false} MatchesShift(find: string -> Option<Found>, t: string, s: string, i: nat)
    requires t != "" && i <= |s| && IsFinder(find)
    ensures MatchesBy(find, t + s, |t| + i) == Shifted(MatchesBy(find, s, i), |t|)
    decreases |s| - i
  {
    if i < |s| {
      assert (t + s)[|t| + i..] == s[i..];
      var found := find(s[i..]);
      if found.None? {
        MatchesShift(find, t, s, i + 1);
      } else {
        var end := EndOf(Match(i, found.value));
        MatchesShift(find, t, s, end);
        FoundFirst(find, s, i, found.value);
        FoundFirst(find, t + s, |t| + i, found.value);
        ShiftedFirst(Match(i, found.value), MatchesBy(find, s, end), |t|);
      }
    }
  }

  lemma {:induction false} FoundFirst(find: string -> Option<Found>, text: string, i: nat, found: Found)
    requires i < |text| && IsFinder(find) && find(text[i..]) == Some(found)
    ensures i < EndOf(Match(i, found)) <= |text|
    ensures MatchesBy(find, text, i) == [Match(i, found)] + MatchesBy(find, text, EndOf(Match(i, found)))
  {
  }

  lemma {:induction false} SliceAfter(t: string, s: string, i: nat, j: nat)
    requires i <= j <= |s|
    ensures (t + s)[|t| + i..|t| + j] == s[i..j]
  {
  }

  lemma {:induction false} ShiftedAreMatches(t: string, s: string, from: nat, matches: seq<Match>)
    requires t != "" && from <= |s| && AreMatches(s, from, matches)
    ensures AreMatches(t + s, |t| + from, Shifted(matches, |t|))
    decreases |matches|
  {
    if matches != [] {
      var first, rest := matches[0], matches[1..];
      SliceAfter(t, s, first.at, EndOf(first));
      ShiftedAreMatches(t, s, EndOf(first), rest);
      MatchGoesFirst(t + s, |t| + from, Match(first.at + |t|, first.found), Shifted(rest, |t|));
    }
  }

  lemma {:induction false} LinkPartsShift(t: string, s: string, from: nat, matches: seq<Match>, accepts: string -> bool)
    requires t != "" && from <= |s| && AreMatches(s, from, matches)
    ensures AreMatches(t + s, |t| + from, Shifted(matches, |t|))
    ensures LinkPartsFrom(t + s, |t| + from, Shifted(matches, |t|), accepts) == LinkPartsFrom(s, from, matches, accepts)
    decreases |matches|
  {
    ShiftedAreMatches(t, s, from, matches);
    if matches == [] {
      assert (t + s)[|t| + from..|t + s|] == s[from..|s|];
    } else {
      var first, rest := matches[0], matches[1..];
      assert Shifted(matches, |t|)[1..] == Shifted(rest, |t|);
      LinkPartsShift(t, s, EndOf(first), rest, accepts);
      if accepts(first.found.href) {
        assert (t + s)[|t| + from..|t| + first.at] == s[from..first.at];
      } else {
        Relaxed(s, from, first, rest);
        LinkPartsShift(t, s, from, rest, accepts);
      }
    }
  }

  lemma {:induction false} FirstLinkIsSplit(text: string, from: nat, first: Match, rest: seq<Match>, accepts: string -> bool)
    requires from <= |text| && AreMatches(text, from, [first] + rest) && accepts(first.found.href)
    ensures from <= first.at <= EndOf(first) <= |text| && AreMatches(text, EndOf(first), rest)
    ensures LinkPartsFrom(text, from, [first] + rest, accepts)
         == PlainBetween(text, from, first.at) + [Link(first.found.caption, first.found.href)] + LinkPartsFrom(text, EndOf(first), rest, accepts)
  {
    assert ([first] + rest)[1..] == rest;
  }

  /** A link found at the front of a text is a part of its own. */
  lemma {:induction false} LinkThenText(find: string -> Option<Found>, found: Found, s: string, accepts: string -> bool)
    requires IsFinder(find) && find(LinkText(found) + s) == Some(found) && accepts(found.href)
    ensures SplitText(find, LinkText(found) + s, accepts) == [Link(found.caption, found.href)] + SplitText(find, s, accepts)
  {
    var link := LinkText(found);
    var text, first, rest := link + s, Match(0, found), MatchesBy(find, link + s, |link|);
    assert text[0..] == text && MatchesBy(find, text, 0) == [first] + rest;
    MatchesByAreMatches(find, text, 0, 0);
    MatchesByAreMatches(find, s, 0, 0);
    MatchesShift(find, link, s, 0);
    FirstLinkIsSplit(text, 0, first, rest, accepts);
    LinkPartsShift(link, s, 0, MatchesBy(find, s, 0), accepts);
  }

  lemma {:induction false} NoLinkInText(find: string -> Option<Found>, t: string, s: string, k: nat)
    requires k <= |t| && BracketFree(t[k..]) && IsFinder(find)
    ensures MatchesBy(find, t + s, k) == MatchesBy(find, t + s, |t|)
    decreases |t| - k
  {
    if k < |t| {
      assert (t + s)[k..][0] == t[k..][0];
      assert t[k..][1..] == t[k + 1..];
      NoLinkInText(find, t, s, k + 1);
    }
  }

  /** Text before an accepted link, or before nothing, is a part of its own. */
  lemma {:induction false} TextThenLink(find: string -> Option<Found>, t: string, s: string, accepts: string -> bool)
    requires IsFinder(find) && t != "" && BracketFree(t)
    requires s == "" || (find(s).Some? && accepts(find(s).value.href))
    ensures SplitText(find, t + s, accepts) == [Text(t)] + SplitText(find, s, accepts)
  {
    assert t[0..] == t && s[0..] == s;
    NoLinkInText(find, t, s, 0);
    MatchesShift(find, t, s, 0);
    MatchesByAreMatches(find, s, 0, 0);
    MatchesByAreMatches(find, t + s, 0, 0);
    if s == "" {
      assert t + s == t && t[0..|t|] == t;
    } else {
      TextBeforeLink(t, s, Match(0, find(s).value), MatchesBy(find, s, EndOf(Match(0, find(s).value))), accepts);
    }
  }

  lemma {:induction false} TextBeforeLink(t: string, s: string, first: Match, rest: seq<Match>, accepts: string -> bool)
    requires t != "" && first.at == 0 && accepts(first.found.href) && AreMatches(s, 0, [first] + rest)
    requires AreMatches(t + s, 0, Shifted([first] + rest, |t|))
    ensures LinkPartsFrom(t + s, 0, Shifted([first] + rest, |t|), accepts) == [Text(t)] + LinkPartsFrom(s, 0, [first] + rest, accepts)
  {
    var moved := Match(|t|, first.found);
    ShiftedFirst(first, rest, |t|);
    FirstLinkIsSplit(s, 0, first, rest, accepts);
    FirstLinkIsSplit(t + s, 0, moved, Shifted(rest, |t|), accepts);
    LinkPartsShift(t, s, EndOf(first), rest, accepts);
    assert (t + s)[0..|t|] == t;
  }

  // -- a whole line --

  /** The parts with each text split around its links. */
  ghost function SplitTexts(find: string -> Option<Found>, parts: seq<Part>, accepts: string -> bool): seq<Part>
    requires IsFinder(find)
  {
    if parts == [] then []
    else (if parts[0].Text? then SplitText(find, parts[0].text, accepts) else [parts[0]]) + SplitTexts(find, parts[1..], accepts)
  }

  /** Every writable link is found where it is written. */
  ghost predicate FindsWritten(find: string -> Option<Found>, accepts: string -> bool) {
    forall found: Found, s: string {:trigger find(LinkText(found) + s)} ::
      IsWritableLink(found, accepts) ==> find(LinkText(found) + s) == Some(found)
  }

  /** Parts that open with a link group into a text that does. */
  lemma {:induction false} GroupOpensWithLink(find: string -> Option<Found>, parts: seq<Part>, em: char, accepts: string -> bool)
    requires FindsWritten(find, accepts) && parts != [] && parts[0].Link? && RichWritable(parts, em, accepts)
    ensures var group := Grouped(parts, em);
            && group != [] && group[0].Text?
            && find(group[0].text) == Some(Found(parts[0].text, parts[0].href)) && accepts(parts[0].href)
  {
    var found := Found(parts[0].text, parts[0].href);
    var rest := Grouped(parts[1..], em);
    assert Written(parts[0], em) == LinkText(found);
    if rest == [] || !rest[0].Text? {
      assert LinkText(found) + "" == LinkText(found);
      assert find(LinkText(found) + "") == Some(found);
    } else {
      assert find(LinkText(found) + rest[0].text) == Some(found);
    }
  }

  /** The first part of a line comes off the text it is grouped into. */
  lemma {:induction false} FirstPartComesOff(find: string -> Option<Found>, part: Part, s: string, em: char, accepts: string -> bool)
    requires IsFinder(find) && FindsWritten(find, accepts) && IsPlain(part) && RichHolds(part, em, accepts)
    requires part.Text? ==> s == "" || (find(s).Some? && accepts(find(s).value.href))
    ensures SplitText(find, Written(part, em) + s, accepts) == [part] + SplitText(find, s, accepts)
  {
    if part.Text? {
      TextThenLink(find, part.text, s, accepts);
    } else {
      var found := Found(part.text, part.href);
      assert Written(part, em) == LinkText(found);
      LinkThenText(find, found, s, accepts);
    }
  }

  lemma {:induction false} SplitNothing(find: string -> Option<Found>, accepts: string -> bool)
    requires IsFinder(find)
    ensures SplitText(find, "", accepts) == []
  {
  }

  /** Splitting the grouped texts gives the parts back. */
  lemma {:induction false} GroupedTextsComeBack(find: string -> Option<Found>, parts: seq<Part>, em: char, accepts: string -> bool)
    requires IsFinder(find) && FindsWritten(find, accepts) && RichWritable(parts, em, accepts)
    ensures SplitTexts(find, Grouped(parts, em), accepts) == parts
    decreases |parts|
  {
    if parts != [] {
      var part, rest := parts[0], Grouped(parts[1..], em);
      GroupedTextsComeBack(find, parts[1..], em, accepts);
      if !IsPlain(part) {
        assert ([part] + rest)[1..] == rest;
      } else if rest != [] && rest[0].Text? {
        if part.Text? {
          NextIsLink(parts, em, accepts);
          GroupOpensWithLink(find, parts[1..], em, accepts);
        }
        FirstPartComesOff(find, part, rest[0].text, em, accepts);
        FirstTextIsLonger(find, part, rest, em, accepts);
      } else {
        FirstPartComesOff(find, part, "", em, accepts);
        SplitNothing(find, accepts);
        assert Written(part, em) + "" == Written(part, em);
        assert ([Text(Written(part, em))] + rest)[1..] == rest;
      }
    }
  }

  lemma {:induction false} NextIsLink(parts: seq<Part>, em: char, accepts: string -> bool)
    requires RichWritable(parts, em, accepts) && parts != [] && parts[0].Text?
    requires Grouped(parts[1..], em) != [] && Grouped(parts[1..], em)[0].Text?
    ensures |parts| > 1 && parts[1].Link?
  {
  }

  lemma {:induction false} FirstTextIsLonger(find: string -> Option<Found>, part: Part, rest: seq<Part>, em: char, accepts: string -> bool)
    requires IsFinder(find) && rest != [] && rest[0].Text?
    requires SplitText(find, Written(part, em) + rest[0].text, accepts) == [part] + SplitText(find, rest[0].text, accepts)
    ensures SplitTexts(find, [Text(Written(part, em) + rest[0].text)] + rest[1..], accepts) == [part] + SplitTexts(find, rest, accepts)
  {
    assert rest == [Text(rest[0].text)] + rest[1..];
    TextIsSplitFirst(find, rest[0].text, rest[1..], accepts);
    TextIsSplitFirst(find, Written(part, em) + rest[0].text, rest[1..], accepts);
  }

  lemma {:induction false} TextIsSplitFirst(find: string -> Option<Found>, text: string, rest: seq<Part>, accepts: string -> bool)
    requires IsFinder(find)
    ensures SplitTexts(find, [Text(text)] + rest, accepts) == SplitText(find, text, accepts) + SplitTexts(find, rest, accepts)
  {
    assert ([Text(text)] + rest)[1..] == rest;
  }

  lemma {:induction false} MarkFreeTogether(s: string, t: string)
    requires MarkFree(s) && MarkFree(t)
    ensures MarkFree(s + t)
  {
    if s == "" {
      assert s + t == t;
    } else {
      MarkFreeTogether(s[1..], t);
      assert (s + t)[1..] == s[1..] + t;
    }
  }

  lemma {:induction false} LinkIsMarkFree(part: Part, em: char, accepts: string -> bool)
    requires IsPlain(part) && RichHolds(part, em, accepts)
    ensures Written(part, em) != "" && MarkFree(Written(part, em))
  {
    if part.Link? {
      MarkFreeTogether("[", part.text);
      MarkFreeTogether("](", part.href);
      MarkFreeTogether("[" + part.text, "](" + part.href);
      MarkFreeTogether("[" + part.text + ("](" + part.href), ")");
      assert Written(part, em) == "[" + part.text + ("](" + part.href) + ")";
    }
  }

  /** The grouped parts are written the same and are writable in plain mode. */
  lemma {:induction false} GroupsAreWritable(parts: seq<Part>, em: char, accepts: string -> bool)
    requires IsEmMark(em) && RichWritable(parts, em, accepts)
    ensures Writable(Grouped(parts, em), em) && WrittenAll(Grouped(parts, em), em) == WrittenAll(parts, em)
    decreases |parts|
  {
    if parts != [] {
      var part, rest := parts[0], Grouped(parts[1..], em);
      GroupsAreWritable(parts[1..], em, accepts);
      if !IsPlain(part) {
        FirstIsWritable(part, rest, em);
      } else {
        LinkIsMarkFree(part, em, accepts);
        if rest != [] && rest[0].Text? {
          MarkFreeTogether(Written(part, em), rest[0].text);
          FirstTextTakesIn(Written(part, em), rest, em);
        } else {
          FirstIsWritable(Text(Written(part, em)), rest, em);
        }
      }
    }
  }

  lemma {:induction false} FirstIsWritable(part: Part, rest: seq<Part>, em: char)
    requires Holds(part, em) && Writable(rest, em) && (part.Text? && rest != [] ==> !rest[0].Text?)
    ensures Writable([part] + rest, em) && WrittenAll([part] + rest, em) == Written(part, em) + WrittenAll(rest, em)
  {
    assert ([part] + rest)[1..] == rest;
  }

  lemma {:induction false} FirstTextTakesIn(text: string, rest: seq<Part>, em: char)
    requires text != "" && rest != [] && rest[0].Text? && Writable(rest, em) && MarkFree(text + rest[0].text)
    ensures var group := [Text(text + rest[0].text)] + rest[1..];
            Writable(group, em) && WrittenAll(group, em) == text + WrittenAll(rest, em)
  {
    var first, after := rest[0].text, rest[1..];
    assert after != [] ==> after[0] == rest[1];
    FirstIsWritable(Text(text + first), after, em);
    Regroup(text, first, WrittenAll(after, em));
  }

  lemma {:induction false} Regroup(a: string, b: string, c: string)
    ensures (a + b) + c == a + (b + c)
  {
  }

  // -- the links the code finds --

  lemma {:induction false} LinkAtIsFinder()
    ensures IsFinder(LinkAt)
  {
    forall s: string | LinkAt(s).Some?
      ensures s != "" && s[0] == '[' && |LinkText(LinkAt(s).value)| <= |s| && s[..|LinkText(LinkAt(s).value)|] == LinkText(LinkAt(s).value)
    {
      LinkIsWritten(s);
    }
  }

  lemma {:induction false} LinkAtFindsWritten(accepts: string -> bool)
    ensures FindsWritten(LinkAt, accepts)
  {
    forall found: Found, s: string | IsWritableLink(found, accepts)
      ensures LinkAt(LinkText(found) + s) == Some(found)
    {
      WrittenLinkIsRead(found, s, accepts);
    }
  }

  lemma {:induction false} MatchesAreBy(text: string, i: nat)
    requires i <= |text| && IsFinder(LinkAt)
    ensures Matches(text, i) == MatchesBy(LinkAt, text, i)
    decreases |text| - i
  {
    if i < |text| {
      var found := LinkAt(text[i..]);
      MatchesAreBy(text, if found.None? then i + 1 else EndOf(Match(i, found.value)));
    }
  }

  lemma {:induction false} RichPartsAreSplit(parts: seq<Part>, accepts: string -> bool)
    requires IsFinder(LinkAt)
    ensures RichParts(parts, accepts) == SplitTexts(LinkAt, parts, accepts)
    decreases |parts|
  {
    if parts != [] {
      RichPartsAreSplit(parts[1..], accepts);
      if parts[0].Text? {
        MatchesAreBy(parts[0].text, 0);
      }
    }
  }

  /** Writing a rich line's parts, links with accepted targets among them, and splitting the line gives the parts back. */
  lemma {:induction false} RichPartsComeBack(parts: seq<Part>, em: char, accepts: string -> bool)
    requires IsEmMark(em) && RichWritable(parts, em, accepts)
    ensures InlineParts(WrittenAll(parts, em), true, accepts) == parts
  {
    GroupsAreWritable(parts, em, accepts);
    WrittenPartsComeBack(Grouped(parts, em), em);
    LinkAtIsFinder();
    LinkAtFindsWritten(accepts);
    RichPartsAreSplit(Grouped(parts, em), accepts);
    GroupedTextsComeBack(LinkAt, parts, em, accepts);
  }
}

/**
 * The answer formatter of app.js: `parseMarkdown` cuts an answer into bold and plain
 * segments at each `**…**` pair found by a global, lazy regular expression,
 * and `buildPartialHtml` renders the first `charCount` characters of those segments,
 * wrapping bold pieces in `<strong>`. `typewriterAnswer` calls it once per typed character.
 */
module Markdown {
  import opened Options
  import opened JsString

  datatype Segment = Segment(text: string, bold: bool)

  /** A match of the regular expression: opening `**` at `start`, closing `**` at `close`. */
  datatype Match = Match(start: nat, close: nat)

  predicate DelimiterAt(text: string, p: int) {
    0 <= p && p + 1 < |text| && text[p] == '*' && text[p + 1] == '*'
  }

  // ---- The regular expression, as the engine applies it ----

  /**
   * The lazy `(.*?)\*\*` tail of a match whose inner text starts at `q`: the first `**`
   * at or after `q`, as long as no line terminator (which `.` does not match) comes first.
   */
  function CloseFrom(text: string, q: nat): (r: Option<nat>)
    decreases |text| - q
    ensures r.Some? ==> q <= r.value && DelimiterAt(text, r.value)
    ensures r.Some? ==> forall k :: q <= k < r.value ==> !IsLineTerminator(text[k])
  {
    if q + 1 >= |text| then None
    else if DelimiterAt(text, q) then Some(q)
    else if IsLineTerminator(text[q]) then None
    else CloseFrom(text, q + 1)
  }

  /** The lazy group stops at the first `**`: none starts before the closing one. */
  lemma {:induction false} CloseFromFirst(text: string, q: nat)
    requires CloseFrom(text, q).Some?
    ensures forall k :: q <= k < CloseFrom(text, q).value ==> !DelimiterAt(text, k)
    decreases |text| - q
  {
    if !DelimiterAt(text, q) {
      CloseFromFirst(text, q + 1);
    }
  }

  /** The closing position of the match that starts at `p`, if one starts there. */
  function MatchAt(text: string, p: nat): Option<nat> {
    if DelimiterAt(text, p) then CloseFrom(text, p + 2) else None
  }

  /** `regex.exec(text)` with `regex.lastIndex == from`: the leftmost match starting at or after `from`. */
  function NextMatch(text: string, from: nat): (r: Option<Match>)
    decreases |text| - from
    ensures r.Some? ==> from <= r.value.start && MatchAt(text, r.value.start) == Some(r.value.close)
    ensures r.Some? ==> r.value.start + 2 <= r.value.close && r.value.close + 2 <= |text|
  {
    if from >= |text| then None
    else match MatchAt(text, from)
      case Some(c) => Some(Match(from, c))
      case None => NextMatch(text, from + 1)
  }

  /** The match found is the leftmost one: no match starts between `from` and it (or after `from` at all, if none is found). */
  lemma {:induction false} NextMatchLeftmost(text: string, from: nat)
    ensures forall p :: from <= p && (NextMatch(text, from).None? || p < NextMatch(text, from).value.start)
                        ==> MatchAt(text, p).None?
    decreases |text| - from
  {
    if from < |text| && MatchAt(text, from).None? {
      NextMatchLeftmost(text, from + 1);
    }
  }

  /** A match opens and closes with `**`, with the inner text between the two pairs. */
  lemma MatchDelimiters(text: string, p: nat)
    requires MatchAt(text, p).Some?
    ensures DelimiterAt(text, p) && DelimiterAt(text, MatchAt(text, p).value)
    ensures p + 2 <= MatchAt(text, p).value && MatchAt(text, p).value + 2 <= |text|
  {
  }

  // ---- What parseMarkdown returns ----

  /**
   * The segments `parseMarkdown` produces from `text[from..]`: the plain text before each
   * match (when not empty), the match's inner text as a bold segment, and the plain rest.
   */
  function Segments(text: string, from: nat): seq<Segment>
    requires from <= |text|
    decreases |text| - from
  {
    match NextMatch(text, from)
    case None => if from < |text| then [Segment(text[from..], false)] else []
    case Some(m) =>
      (if m.start > from then [Segment(text[from..m.start], false)] else [])
      + [Segment(text[m.start + 2..m.close], true)]
      + Segments(text, m.close + 2)
  }

  /** There are segments exactly when some text is left: each turn of the loop consumes at least one character. */
  lemma SegmentsEmpty(text: string, from: nat)
    requires from <= |text|
    ensures Segments(text, from) == [] <==> from == |text|
  {
  }

  /** Plain text before a match, if any, as parseMarkdown pushes it. */
  function Before(text: string, from: nat, m: Match): seq<Segment>
    requires from <= m.start <= |text|
  {
    if m.start > from then [Segment(text[from..m.start], false)] else []
  }

  /** One turn of the regex loop: the segments from `from` are those up to the match, then the rest. */
  lemma SegmentsAtMatch(text: string, from: nat, m: Match)
    requires from <= |text| && NextMatch(text, from) == Some(m)
    ensures m.close + 2 <= |text|
    ensures Segments(text, from)
         == Before(text, from, m) + [Segment(text[m.start + 2..m.close], true)] + Segments(text, m.close + 2)
  {
  }

  /** When no match is left, the rest of the text is one plain segment, if it is not empty. */
  lemma SegmentsAtEnd(text: string, from: nat)
    requires from <= |text| && NextMatch(text, from).None?
    ensures Segments(text, from) == if from < |text| then [Segment(text[from..], false)] else []
  {
  }

  /** The invariant of parseMarkdown's loop survives one turn. */
  lemma SegmentsStep(text: string, from: nat, m: Match, to: nat, done: seq<Segment>, next: seq<Segment>, whole: seq<Segment>)
    requires from <= |text| && NextMatch(text, from) == Some(m) && to == m.close + 2
    requires done + Segments(text, from) == whole
    requires next == done + Before(text, from, m) + [Segment(text[m.start + 2..m.close], true)]
    ensures to <= |text|
    ensures next + Segments(text, to) == whole
  {
    SegmentsAtMatch(text, from, m);
    AppendAssoc(done, Before(text, from, m) + [Segment(text[m.start + 2..m.close], true)], Segments(text, m.close + 2));
  }

  lemma AppendAssoc<T>(a: seq<T>, b: seq<T>, c: seq<T>)
    ensures (a + b) + c == a + (b + c)
  {
  }

  /** `parseMarkdown(text)`: the regex loop, pushing onto `segments` and moving `lastIndex`. */
  method ParseMarkdown(text: string) returns (segments: seq<Segment>)
    ensures segments == Segments(text, 0)
  {
    segments := [];
    var lastIndex: nat := 0;
    ghost var whole := Segments(text, 0);
    while true
      invariant lastIndex <= |text|
      invariant segments + Segments(text, lastIndex) == whole
      decreases |text| - lastIndex
    {
      var found := NextMatch(text, lastIndex);
      if found.None? {
        break;
      }
      var m := found.value;
      ghost var before := segments;
      if m.start > lastIndex {
        segments := segments + [Segment(text[lastIndex..m.start], false)];
      }
      assert segments == before + Before(text, lastIndex, m);
      segments := segments + [Segment(text[m.start + 2..m.close], true)];
      ghost var from := lastIndex;
      lastIndex := m.close + 2;
      SegmentsStep(text, from, m, lastIndex, before, segments, whole);
    }
    SegmentsAtEnd(text, lastIndex);
    if lastIndex < |text| {
      segments := segments + [Segment(text[lastIndex..], false)];
    }
  }

  // ---- The inverse: writing segments back as marked-up text ----

  function Piece(s: Segment): string {
    if s.bold then "**" + s.text + "**" else s.text
  }

  /** The marked-up text a list of segments stands for. */
  function Markup(segs: seq<Segment>): string {
    if segs == [] then [] else Piece(segs[0]) + Markup(segs[1..])
  }

  /** The text of the segments without any markup. */
  function PlainText(segs: seq<Segment>): string {
    if segs == [] then [] else segs[0].text + PlainText(segs[1..])
  }

  lemma {:induction false} MarkupAppend(a: seq<Segment>, b: seq<Segment>)
    ensures Markup(a + b) == Markup(a) + Markup(b)
  {
    if a != [] {
      assert (a + b)[1..] == a[1..] + b;
      MarkupAppend(a[1..], b);
      assert Markup(a + b) == Piece(a[0]) + Markup(a[1..] + b);
      AppendAssoc(Piece(a[0]), Markup(a[1..]), Markup(b));
    } else {
      assert a + b == b;
    }
  }

  lemma {:induction false} PlainTextAppend(a: seq<Segment>, b: seq<Segment>)
    ensures PlainText(a + b) == PlainText(a) + PlainText(b)
  {
    if a != [] {
      assert (a + b)[1..] == a[1..] + b;
      PlainTextAppend(a[1..], b);
      assert PlainText(a + b) == a[0].text + PlainText(a[1..] + b);
      AppendAssoc(a[0].text, PlainText(a[1..]), PlainText(b));
    } else {
      assert a + b == b;
    }
  }

  /** Round trip: putting the `**` pairs back around the bold segments gives the input again. */
  lemma {:induction false} MarkupOfSegments(text: string, from: nat)
    requires from <= |text|
    ensures Markup(Segments(text, from)) == text[from..]
    decreases |text| - from
  {
    var found := NextMatch(text, from);
    if found.None? {
      SegmentsAtEnd(text, from);
      if from < |text| {
        MarkupSingle(Segment(text[from..], false));
      }
    } else {
      var m := found.value;
      MatchDelimiters(text, m.start);
      var to := m.close + 2;
      var rest := Segments(text, to);
      SegmentsAtMatch(text, from, m);
      assert Segments(text, from) == Before(text, from, m) + [Segment(text[m.start + 2..m.close], true)] + rest;
      MarkupOfSegments(text, to);
      MarkupAroundMatch(text, from, m, rest);
    }
  }

  lemma MarkupSingle(s: Segment)
    ensures Markup([s]) == Piece(s)
  {
    assert [s][1..] == [];
  }

  lemma MarkupThree(pre: seq<Segment>, b: Segment, rest: seq<Segment>)
    ensures Markup(pre + [b] + rest) == Markup(pre) + Piece(b) + Markup(rest)
  {
    MarkupAppend(pre + [b], rest);
    MarkupAppend(pre, [b]);
    MarkupSingle(b);
  }

  lemma MarkupBefore(text: string, from: nat, m: Match)
    requires from <= m.start <= |text|
    ensures Markup(Before(text, from, m)) == text[from..m.start]
  {
    if m.start > from {
      MarkupSingle(Segment(text[from..m.start], false));
    }
  }

  lemma MarkupAroundMatch(text: string, from: nat, m: Match, rest: seq<Segment>)
    requires from <= m.start && m.start + 2 <= m.close && m.close + 2 <= |text|
    requires DelimiterAt(text, m.start) && DelimiterAt(text, m.close)
    requires Markup(rest) == text[m.close + 2..]
    ensures Markup(Before(text, from, m) + [Segment(text[m.start + 2..m.close], true)] + rest) == text[from..]
  {
    var p, inner := text[from..m.start], text[m.start + 2..m.close];
    MarkupThree(Before(text, from, m), Segment(inner, true), rest);
    MarkupBefore(text, from, m);
    TextAroundMatch(text, from, m);
    AppendAssoc(p, "**", inner);
    AppendAssoc(p, "**" + inner, "**");
  }

  lemma TextAroundMatch(text: string, from: nat, m: Match)
    requires from <= m.start && m.start + 2 <= m.close && m.close + 2 <= |text|
    requires DelimiterAt(text, m.start) && DelimiterAt(text, m.close)
    ensures text[from..] == text[from..m.start] + "**" + text[m.start + 2..m.close] + "**" + text[m.close + 2..]
  {
    assert text[m.start..m.start + 2] == "**";
    assert text[m.close..m.close + 2] == "**";
    assert text[from..] == text[from..m.start] + text[m.start..m.start + 2]
      + text[m.start + 2..m.close] + text[m.close..m.close + 2] + text[m.close + 2..];
  }

  // ---- The shape of what parseMarkdown returns ----

  /**
   * `inner` is what the lazy group captures when the closing `**` follows it directly:
   * no line terminator in it, and no `**` starts inside it (counting the closing pair).
   */
  predicate LazyInner(inner: string) {
    && (forall k :: 0 <= k < |inner| ==> !IsLineTerminator(inner[k]))
    && (forall k :: 0 <= k < |inner| ==> !DelimiterAt(inner + "**", k))
  }

  /** No match of the regular expression anywhere in `s`. */
  predicate NoMatch(s: string) {
    NextMatch(s, 0).None?
  }

  /** Plain segments are never empty, never adjacent and hold no match; bold ones are lazy captures. */
  predicate Canonical(segs: seq<Segment>) {
    && (forall i :: 0 <= i < |segs| && !segs[i].bold ==> segs[i].text != [] && NoMatch(segs[i].text))
    && (forall i :: 0 <= i < |segs| && segs[i].bold ==> LazyInner(segs[i].text))
    && (forall i :: 0 < i < |segs| && !segs[i].bold ==> segs[i - 1].bold)
  }

  lemma CanonicalConcat(a: seq<Segment>, b: seq<Segment>)
    requires Canonical(a) && Canonical(b)
    requires a != [] && b != [] && !b[0].bold ==> a[|a| - 1].bold
    ensures Canonical(a + b)
  {
    var ab := a + b;
    forall i | 0 < i < |ab| && !ab[i].bold ensures ab[i - 1].bold {
      if i < |a| { assert ab[i] == a[i] && ab[i - 1] == a[i - 1]; }
      else if i == |a| { assert ab[i - 1] == a[|a| - 1] && ab[i] == b[0]; }
      else { assert ab[i] == b[i - |a|] && ab[i - 1] == b[i - 1 - |a|]; }
    }
    forall i | 0 <= i < |ab| ensures ab[i] == (if i < |a| then a[i] else b[i - |a|]) { }
  }

  /** The lazy tail seen inside a slice is the lazy tail seen in the whole text, shifted. */
  lemma {:induction false} CloseFromSlice(text: string, a: nat, b: nat, q: nat)
    requires a <= b <= |text|
    requires CloseFrom(text[a..b], q).Some?
    ensures CloseFrom(text, a + q) == Some(a + CloseFrom(text[a..b], q).value)
    decreases b - a - q
  {
    var s := text[a..b];
    assert q + 1 < |s|;
    assert DelimiterAt(s, q) <==> DelimiterAt(text, a + q) by {
      assert s[q] == text[a + q] && s[q + 1] == text[a + q + 1];
    }
    assert s[q] == text[a + q];
    if !DelimiterAt(s, q) {
      CloseFromSlice(text, a, b, q + 1);
    }
  }

  lemma MatchAtSlice(text: string, a: nat, b: nat, p: nat)
    requires a <= b <= |text|
    requires MatchAt(text[a..b], p).Some?
    ensures MatchAt(text, a + p).Some?
  {
    var s := text[a..b];
    assert s[p] == text[a + p] && s[p + 1] == text[a + p + 1];
    CloseFromSlice(text, a, b, p + 2);
  }

  /** A stretch of text in which no match starts (even one running past its end) has no match of its own. */
  lemma NoMatchInSlice(text: string, a: nat, b: nat)
    requires a <= b <= |text|
    requires forall p :: a <= p < b ==> MatchAt(text, p).None?
    ensures NoMatch(text[a..b])
  {
    var s := text[a..b];
    var r := NextMatch(s, 0);
    if r.Some? {
      var p := r.value.start;
      assert DelimiterAt(s, p);
      MatchAtSlice(text, a, b, p);
    }
  }

  lemma LazyInnerOfMatch(text: string, m: Match)
    requires MatchAt(text, m.start) == Some(m.close)
    ensures m.start + 2 <= m.close && m.close + 2 <= |text|
    ensures LazyInner(text[m.start + 2..m.close])
  {
    var q := m.start + 2;
    CloseFromFirst(text, q);
    var inner := text[q..m.close];
    var t := inner + "**";
    assert t == text[q..m.close + 2];
    forall k | 0 <= k < |inner| ensures !IsLineTerminator(inner[k]) {
      assert inner[k] == text[q + k];
    }
    forall k | 0 <= k < |inner| ensures !DelimiterAt(t, k) {
      assert !DelimiterAt(text, q + k);
      assert t[k] == text[q + k] && t[k + 1] == text[q + k + 1];
    }
  }

  /** The plain text in front of a match holds no match, since the one found is the leftmost. */
  lemma CanonicalBefore(text: string, from: nat, m: Match)
    requires from <= |text| && NextMatch(text, from) == Some(m)
    ensures Canonical(Before(text, from, m))
  {
    if m.start > from {
      NextMatchLeftmost(text, from);
      NoMatchInSlice(text, from, m.start);
    }
  }

  /** The bold segment of a match is a lazy capture. */
  lemma CanonicalBold(text: string, m: Match)
    requires MatchAt(text, m.start) == Some(m.close)
    ensures m.start + 2 <= m.close && m.close + 2 <= |text|
    ensures Canonical([Segment(text[m.start + 2..m.close], true)])
  {
    LazyInnerOfMatch(text, m);
  }

  /** Text with no match left is at most one plain segment, and that one is canonical. */
  lemma CanonicalAtEnd(text: string, from: nat)
    requires from <= |text| && NextMatch(text, from).None?
    ensures Canonical(Segments(text, from))
  {
    SegmentsAtEnd(text, from);
    if from < |text| {
      NextMatchLeftmost(text, from);
      NoMatchInSlice(text, from, |text|);
      assert text[from..|text|] == text[from..];
    }
  }

  /** A canonical rest stays canonical with the plain text and the bold segment of a match in front. */
  lemma CanonicalAtMatch(text: string, from: nat, m: Match)
    requires from <= |text| && NextMatch(text, from) == Some(m)
    requires m.close + 2 <= |text| && Canonical(Segments(text, m.close + 2))
    ensures Canonical(Segments(text, from))
  {
    SegmentsAtMatch(text, from, m);
    var pre := Before(text, from, m);
    var bold := [Segment(text[m.start + 2..m.close], true)];
    CanonicalBefore(text, from, m);
    CanonicalBold(text, m);
    CanonicalConcat(pre, bold);
    CanonicalConcat(pre + bold, Segments(text, m.close + 2));
  }

  /**
   * What parseMarkdown returns is canonical: plain segments are non-empty and hold no match
   * (the regex found the leftmost one), plain segments never follow each other, and each
   * bold segment is the shortest inner text the lazy group could take.
   */
  lemma {:induction false} SegmentsCanonical(text: string, from: nat)
    requires from <= |text|
    ensures Canonical(Segments(text, from))
    decreases |text| - from
  {
    match NextMatch(text, from)
    case None =>
      CanonicalAtEnd(text, from);
    case Some(m) =>
      SegmentsCanonical(text, m.close + 2);
      CanonicalAtMatch(text, from, m);
  }

  // ---- buildPartialHtml ----

  function Min(a: int, b: int): int { if a <= b then a else b }

  /**
   * The pieces `buildPartialHtml(segs, remaining)` emits: segments in order, each cut to what
   * is still remaining, stopping as soon as nothing remains.
   */
  function Truncate(segs: seq<Segment>, remaining: int): (r: seq<Segment>)
    ensures |r| <= |segs|
  {
    if segs == [] || remaining <= 0 then []
    else
      var t := segs[0].text[..Min(remaining, |segs[0].text|)];
      [Segment(t, segs[0].bold)] + Truncate(segs[1..], remaining - |t|)
  }

  /** The HTML of one piece: between `<strong>` tags when bold. */
  function Tagged(p: Segment): string {
    if p.bold then "<strong>" + p.text + "</strong>" else p.text
  }

  /** The HTML for a list of pieces. */
  function Html(pieces: seq<Segment>): (r: string)
    ensures |r| >= |PlainText(pieces)|
  {
    if pieces == [] then [] else Tagged(pieces[0]) + Html(pieces[1..])
  }

  /** Pieces without bold parts are rendered as their bare text. */
  lemma {:induction false} HtmlWithoutBold(pieces: seq<Segment>)
    requires forall i :: 0 <= i < |pieces| ==> !pieces[i].bold
    ensures Html(pieces) == PlainText(pieces)
  {
    if pieces != [] {
      HtmlWithoutBold(pieces[1..]);
    }
  }

  /** One turn of buildPartialHtml's loop: the first segment cut to what remains, then the rest. */
  lemma HtmlTruncateUnfold(segs: seq<Segment>, remaining: int, t: string)
    requires segs != [] && remaining > 0 && t == segs[0].text[..Min(remaining, |segs[0].text|)]
    ensures Html(Truncate(segs, remaining)) == Tagged(Segment(t, segs[0].bold)) + Html(Truncate(segs[1..], remaining - |t|))
  {
    var pieces := [Segment(t, segs[0].bold)] + Truncate(segs[1..], remaining - |t|);
    assert Truncate(segs, remaining) == pieces;
    assert pieces[1..] == Truncate(segs[1..], remaining - |t|);
  }

  /**
   * The invariant of buildPartialHtml's loop survives one turn: `t` is the cut segment `i`,
   * `html'` the HTML so far with its piece appended, `left` what then remains.
   */
  lemma BuildStep(segs: seq<Segment>, i: nat, remaining: int, t: string, html: string, html': string, left: int, goal: string)
    requires i < |segs| && remaining > 0 && t == segs[i].text[..Min(remaining, |segs[i].text|)]
    requires html + Html(Truncate(segs[i..], remaining)) == goal
    requires html' == html + Tagged(Segment(t, segs[i].bold)) && left == remaining - |t|
    ensures html' + Html(Truncate(segs[i + 1..], left)) == goal
  {
    var piece, rest := Tagged(Segment(t, segs[i].bold)), Html(Truncate(segs[i + 1..], left));
    HtmlTruncateUnfold(segs[i..], remaining, t);
    assert segs[i..][1..] == segs[i + 1..];
    assert Html(Truncate(segs[i..], remaining)) == piece + rest;
    AppendAssoc(html, piece, rest);
  }

  /** `buildPartialHtml(segments, charCount)`: the `for … of` loop decrementing `remaining`. */
  method BuildPartialHtml(segments: seq<Segment>, charCount: int) returns (html: string)
    ensures html == Html(Truncate(segments, charCount))
  {
    html := "";
    var remaining := charCount;
    var i := 0;
    ghost var goal := Html(Truncate(segments, charCount));
    while i < |segments|
      invariant i <= |segments|
      invariant html + Html(Truncate(segments[i..], remaining)) == goal
      decreases |segments| - i
    {
      if remaining <= 0 {
        break;
      }
      var seg := segments[i];
      var text := seg.text[..Min(remaining, |seg.text|)];
      ghost var before, had := html, remaining;
      remaining := remaining - |text|;
      html := html + if seg.bold then "<strong>" + text + "</strong>" else text;
      BuildStep(segments, i, had, text, before, html, remaining, goal);
      i := i + 1;
    }
    if i == |segments| {
      assert segments[i..] == [];
    }
  }

  /** How many characters `buildPartialHtml` shows out of `total`. */
  function Shown(charCount: int, total: nat): nat {
    if charCount <= 0 then 0 else if charCount < total then charCount else total
  }

  /** The text of the pieces is the first `charCount` characters of the segments' text (none when `charCount <= 0`). */
  lemma {:induction false} TruncatePlainText(segs: seq<Segment>, charCount: int)
    ensures PlainText(Truncate(segs, charCount)) == PlainText(segs)[..Shown(charCount, |PlainText(segs)|)]
  {
    if segs != [] && charCount > 0 {
      var s := segs[0].text;
      var t := s[..Min(charCount, |s|)];
      TruncatePlainText(segs[1..], charCount - |t|);
      var rest := PlainText(segs[1..]);
      assert PlainText(segs) == s + rest;
      if charCount < |s| {
        assert (s + rest)[..charCount] == t;
        assert Truncate(segs[1..], charCount - |t|) == [];
      } else {
        assert (s + rest)[..Shown(charCount, |s + rest|)] == s + rest[..Shown(charCount - |s|, |rest|)];
      }
    }
  }

  /**
   * Each piece keeps its segment's boldness and is a prefix of its text; the pieces come in
   * segment order and all but the last are whole segments.
   */
  lemma {:induction false} TruncatePieces(segs: seq<Segment>, charCount: int)
    ensures |Truncate(segs, charCount)| <= |segs|
    ensures forall i :: 0 <= i < |Truncate(segs, charCount)| ==>
              Truncate(segs, charCount)[i].bold == segs[i].bold
              && IsPrefix(Truncate(segs, charCount)[i].text, segs[i].text)
    ensures forall i :: 0 <= i < |Truncate(segs, charCount)| - 1 ==> Truncate(segs, charCount)[i] == segs[i]
  {
    if segs != [] && charCount > 0 {
      var s := segs[0].text;
      var t := s[..Min(charCount, |s|)];
      TruncatePieces(segs[1..], charCount - |t|);
      var rest := Truncate(segs[1..], charCount - |t|);
      var all := Truncate(segs, charCount);
      assert all == [Segment(t, segs[0].bold)] + rest;
      if rest != [] {
        assert charCount - |t| > 0;
        assert t == s;
      }
      forall i | 0 < i < |all| ensures all[i] == rest[i - 1] && segs[i] == segs[1..][i - 1] { }
    }
  }

  /** Asking for more characters than there are shows every segment. */
  lemma {:induction false} TruncateBeyondEnd(segs: seq<Segment>, charCount: int)
    requires charCount > |PlainText(segs)|
    ensures Truncate(segs, charCount) == segs
  {
    if segs != [] {
      PlainTextAppend([segs[0]], segs[1..]);
      assert segs == [segs[0]] + segs[1..];
      TruncateBeyondEnd(segs[1..], charCount - |segs[0].text|);
      assert segs[0].text[..Min(charCount, |segs[0].text|)] == segs[0].text;
    }
  }

  // ---- The typewriter's stopping point (see README, Findings) ----

  /** The typewriter's global replace of `**` by nothing: every `**`, scanned left to right, removed. */
  function RemoveDelimiters(text: string): (r: string)
    ensures |r| <= |text|
  {
    if |text| < 2 then text
    else if text[0] == '*' && text[1] == '*' then RemoveDelimiters(text[2..])
    else [text[0]] + RemoveDelimiters(text[1..])
  }

  /** A text that does not start with `*` keeps its first character. */
  lemma RemoveDelimitersHead(text: string)
    requires text != [] && text[0] != '*'
    ensures RemoveDelimiters(text) != [] && RemoveDelimiters(text)[0] == text[0]
  {
  }

  /** The replacement is global: no `**` is left in what it returns. */
  lemma {:induction false} RemoveDelimitersLeavesNone(text: string)
    ensures forall k :: !DelimiterAt(RemoveDelimiters(text), k)
    decreases |text|
  {
    if |text| < 2 {
    } else if text[0] == '*' && text[1] == '*' {
      RemoveDelimitersLeavesNone(text[2..]);
    } else {
      var rest := RemoveDelimiters(text[1..]);
      RemoveDelimitersLeavesNone(text[1..]);
      if text[0] == '*' {
        RemoveDelimitersHead(text[1..]);
      }
      assert RemoveDelimiters(text) == [text[0]] + rest;
      forall k | DelimiterAt(RemoveDelimiters(text), k) ensures false {
        if k > 0 {
          assert DelimiterAt(rest, k - 1);
        }
      }
    }
  }

  /** The characters of `text` other than `*`, in order. */
  function NoStars(text: string): string {
    if text == [] then [] else (if text[0] == '*' then [] else [text[0]]) + NoStars(text[1..])
  }

  /** Only `*` characters are removed: every other character is kept, in order. */
  lemma {:induction false} RemoveDelimitersKeepsOthers(text: string)
    ensures NoStars(RemoveDelimiters(text)) == NoStars(text)
    decreases |text|
  {
    if |text| < 2 {
    } else if text[0] == '*' && text[1] == '*' {
      RemoveDelimitersKeepsOthers(text[2..]);
      assert text[1..][1..] == text[2..];
    } else {
      var rest := RemoveDelimiters(text[1..]);
      RemoveDelimitersKeepsOthers(text[1..]);
      assert ([text[0]] + rest)[1..] == rest;
    }
  }

  /** A text holding no `**` comes back unchanged. */
  lemma {:induction false} RemoveDelimitersUnchanged(text: string)
    requires forall k :: !DelimiterAt(text, k)
    ensures RemoveDelimiters(text) == text
    decreases |text|
  {
    if |text| >= 2 {
      assert !DelimiterAt(text, 0);
      forall k ensures !DelimiterAt(text[1..], k) {
        assert DelimiterAt(text[1..], k) ==> DelimiterAt(text, k + 1);
      }
      RemoveDelimitersUnchanged(text[1..]);
    }
  }

  /**
   * The text of the last frame `typewriterAnswer` draws, as written: it types
   * as many characters as the answer holds once every `**` is replaced by nothing.
   */
  function TypedTextAsWritten(text: string): string {
    PlainText(Truncate(Segments(text, 0), |RemoveDelimiters(text)|))
  }

  /** An unmatched `**` makes the typewriter stop short: "a**b" ends on "a*". */
  lemma StrayDelimiterCutsAnswer()
    ensures Segments("a**b", 0) == [Segment("a**b", false)]
    ensures TypedTextAsWritten("a**b") == "a*"
    ensures PlainText(Segments("a**b", 0)) == "a**b"
  {
    var text := "a**b";
    assert MatchAt(text, 1).None?;
    assert NextMatch(text, 0).None?;
    assert RemoveDelimiters(text) == "ab";
    assert text[..Min(2, |text|)] == "a*";
    assert [Segment(text, false)][1..] == [];
    assert Truncate([Segment(text, false)], 2) == [Segment("a*", false)];
    assert [Segment("a*", false)][1..] == [];
    assert PlainText([Segment("a*", false)]) == "a*";
    assert PlainText([Segment(text, false)]) == text;
  }

  /** The corrected typewriter length: the number of characters the segments hold. */
  function TypedTextCorrected(text: string): string {
    var segs := Segments(text, 0);
    PlainText(Truncate(segs, |PlainText(segs)|))
  }

  /** With the corrected length the last frame shows the whole answer, markup removed. */
  lemma TypedTextCorrectedIsWholeAnswer(text: string)
    ensures TypedTextCorrected(text) == PlainText(Segments(text, 0))
  {
    var segs := Segments(text, 0);
    TruncatePlainText(segs, |PlainText(segs)|);
  }
}

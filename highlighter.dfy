/** The code renderer of the listing page (src/App.jsx): the escape of `<` and
    `>` applied to every snippet's code, then `highlightCode`, a fixed series of
    global regular-expression replacements per category, each of which wraps
    what it matches in a coloured `<span>`.

    Each replacement is modelled as the scanner that a global `replace`
    performs: from position 0, try the pattern at the current position; on a
    match emit the replacement and continue after the match, otherwise emit the
    character and move on by one. The matchers below follow the backtracking
    order of each fixed pattern. */
module Highlighter {
  import opened Text

  // ---------------------------------------------------------------------------
  // Escape

  /** `code.replace(/</g, '&lt;').replace(/>/g, '&gt;')`. */
  function Escape(code: string): string {
    ReplaceChar(ReplaceChar(code, '<', "&lt;"), '>', "&gt;")
  }

  function EscapeChar(c: char): string {
    if c == '<' then "&lt;" else if c == '>' then "&gt;" else [c]
  }

  /** Reference definition: every character escaped on its own. */
  function EscapeEach(code: string): string {
    if code == [] then [] else EscapeChar(code[0]) + EscapeEach(code[1..])
  }

  /** The two chained replacements escape each character independently. */
  lemma {:induction false} EscapeIsPerChar(code: string)
    ensures Escape(code) == EscapeEach(code)
  {
    if code != [] {
      var first := if code[0] == '<' then "&lt;" else [code[0]];
      var rest := ReplaceChar(code[1..], '<', "&lt;");
      assert ReplaceChar(code, '<', "&lt;") == first + rest;
      ReplaceCharAppend(first, rest, '>', "&gt;");
      assert ReplaceChar(first, '>', "&gt;") == EscapeChar(code[0]) by {
        if code[0] == '<' {
          assert ReplaceChar("&lt;", '>', "&gt;") == "&lt;" by {
            assert "&lt;"[1..] == "lt;";
            assert "lt;"[1..] == "t;";
            assert "t;"[1..] == ";";
          }
        } else {
          assert first[1..] == [];
        }
      }
      EscapeIsPerChar(code[1..]);
    }
  }

  /** The escaped text holds no `<` and no `>`. */
  lemma EscapeRemovesAngles(code: string)
    ensures '<' !in Escape(code) && '>' !in Escape(code)
  {
    var once := ReplaceChar(code, '<', "&lt;");
    ReplaceCharRemoves(code, '<', "&lt;");
    ReplaceCharCountOther(once, '>', "&gt;", '<');
    ReplaceCharRemoves(once, '>', "&gt;");
  }

  /** The escaped text is three characters longer for every `<` and every `>`
      of the code. */
  lemma EscapeLength(code: string)
    ensures |Escape(code)| == |code| + 3 * (CountChar(code, '<') + CountChar(code, '>'))
  {
    var once := ReplaceChar(code, '<', "&lt;");
    var lt, gt := CountChar(code, '<'), CountChar(code, '>');
    ReplaceCharLength(code, '<', "&lt;");
    assert |once| == |code| + 3 * lt;
    ReplaceCharCountOther(code, '<', "&lt;", '>');
    assert CountChar(once, '>') == gt;
    ReplaceCharLength(once, '>', "&gt;");
    assert |Escape(code)| == |once| + 3 * gt;
  }

  // ---------------------------------------------------------------------------
  // Markup

  const KeywordColor := "#569cd6"
  const StringColor := "#ce9178"
  const VariableColor := "#9cdcfe"
  const TagColor := "#569cd6"
  const SelectorColor := "#dcdcaa"
  const PropertyColor := "#92c5f7"

  function OpenTag(color: string): (r: string)
    ensures |r| > 1 && r[0] == '<' && r[1] == 's'
  {
    "<span style=\"color: " + color + "\">"
  }

  const CloseTag := "</span>"

  // ---------------------------------------------------------------------------
  // Character runs and searches used by the matchers

  /** The end of the longest run of characters of a class starting at `i`. */
  function RunEnd(s: string, i: nat, inClass: char -> bool): (j: nat)
    requires i <= |s|
    ensures i <= j <= |s|
    ensures forall k :: i <= k < j ==> inClass(s[k])
    ensures j < |s| ==> !inClass(s[j])
    decreases |s| - i
  {
    if i < |s| && inClass(s[i]) then RunEnd(s, i + 1, inClass) else i
  }

  /** `[\w-]`. */
  predicate IsNameChar(c: char) {
    IsWordChar(c) || c == '-'
  }

  predicate IsQuote(c: char) {
    c == '"' || c == '\''
  }

  predicate NotQuote(c: char) {
    !IsQuote(c)
  }

  /** The first occurrence of `&gt;` at or after `i`, or `|s|` when there is none. */
  function GtFrom(s: string, i: nat): (j: nat)
    requires i <= |s|
    ensures i <= j <= |s|
    ensures j < |s| ==> OccursAt(s, "&gt;", j)
    ensures forall k :: i <= k < j ==> !OccursAt(s, "&gt;", k)
    decreases |s| - i
  {
    if i == |s| then i else if OccursAt(s, "&gt;", i) then i else GtFrom(s, i + 1)
  }

  /** `\b`: the word-character status changes between `i - 1` and `i`. */
  predicate WordBoundary(s: string, i: nat)
    requires i <= |s|
  {
    (i > 0 && IsWordChar(s[i - 1])) != (i < |s| && IsWordChar(s[i]))
  }

  // ---------------------------------------------------------------------------
  // Matchers: one per pattern, at one position

  /** What a pattern matches at a position: the length of the part wrapped in the
      span (`$1`) and the length of the part re-emitted after it (`$2`). */
  datatype Match = NoMatch | Match(group: nat, tail: nat)

  /** The alternation of the PHP keyword pattern, in its order. */
  const Keywords: seq<string> := ["function", "class", "public", "private", "protected",
    "static", "return", "if", "else", "foreach", "for", "while", "echo", "print", "var",
    "const", "namespace", "use"]

  predicate KeywordEndsAt(s: string, i: nat, kw: string) {
    |kw| > 0 && OccursAt(s, kw, i) && WordBoundary(s, i + |kw|)
  }

  /** The first alternative of `kws` from the `k`-th on that matches, tried in
      order, or `|kws|` when none does. */
  function KeywordFrom(s: string, i: nat, kws: seq<string>, k: nat): (n: nat)
    requires k <= |kws|
    ensures k <= n <= |kws|
    ensures n < |kws| ==> KeywordEndsAt(s, i, kws[n])
    ensures forall j :: k <= j < n ==> !KeywordEndsAt(s, i, kws[j])
    decreases |kws| - k
  {
    if k == |kws| then k
    else if KeywordEndsAt(s, i, kws[k]) then k
    else KeywordFrom(s, i, kws, k + 1)
  }

  /** `\b(kw1|kw2|…)\b` for the alternation `kws`; the keyword pass uses it
      with `Keywords`. */
  function AlternationAt(s: string, i: nat, kws: seq<string>): (m: Match)
    requires i < |s|
    ensures m.Match? ==> m.group > 0 && i + m.group + m.tail <= |s|
    ensures m.Match? <==>
      WordBoundary(s, i) && exists n :: 0 <= n < |kws| && KeywordEndsAt(s, i, kws[n])
    ensures m.Match? ==> (m.tail == 0 && WordBoundary(s, i) && WordBoundary(s, i + m.group)
      && exists n :: 0 <= n < |kws| && s[i..i + m.group] == kws[n])
    ensures m.Match? ==> m.group == |kws[KeywordFrom(s, i, kws, 0)]|
  {
    if WordBoundary(s, i) then
      var n := KeywordFrom(s, i, kws, 0);
      if n < |kws| then
        var kw := kws[n];
        assert KeywordEndsAt(s, i, kw) && s[i..i + |kw|] == kw;
        Match(|kw|, 0)
      else
        NoMatch
    else NoMatch
  }

  /** `(["'])([^"']*)\1`: a quote, the characters up to the next quote of
      either kind, and that next quote when it is the same kind. */
  function QuotedAt(s: string, i: nat): (m: Match)
    requires i < |s|
    ensures m.Match? <==>
      IsQuote(s[i]) && RunEnd(s, i + 1, NotQuote) < |s| && s[RunEnd(s, i + 1, NotQuote)] == s[i]
    ensures m.Match? ==> m.group > 0 && i + m.group + m.tail <= |s|
    ensures m.Match? ==> (m.tail == 0 && m.group >= 2 && s[i + m.group - 1] == s[i]
      && forall k :: i < k < i + m.group - 1 ==> !IsQuote(s[k]))
  {
    if IsQuote(s[i]) then
      var j := RunEnd(s, i + 1, NotQuote);
      if j < |s| && s[j] == s[i] then Match(j + 1 - i, 0) else NoMatch
    else NoMatch
  }

  /** `(\$\w+)`: a dollar sign and the longest run of word characters after it. */
  function VariableAt(s: string, i: nat): (m: Match)
    requires i < |s|
    ensures m.Match? <==> s[i] == '$' && i + 1 < |s| && IsWordChar(s[i + 1])
    ensures m.Match? ==> m.group > 0 && i + m.group + m.tail <= |s|
    ensures m.Match? ==> (m.tail == 0 && m.group >= 2
      && (forall k :: i < k < i + m.group ==> IsWordChar(s[k]))
      && (i + m.group == |s| || !IsWordChar(s[i + m.group])))
  {
    if s[i] == '$' then
      var j := RunEnd(s, i + 1, IsWordChar);
      if j > i + 1 then Match(j - i, 0) else NoMatch
    else NoMatch
  }

  /** The character class `[^&gt;]` as the listing page writes it: any character
      except `&`, `g`, `t` and `;`. */
  predicate NotInWrittenClass(c: char) {
    c != '&' && c != 'g' && c != 't' && c != ';'
  }

  /** `(&lt;\/?[^&gt;]+&gt;)` as written. Since `/` is in the class, the optional
      slash changes nothing: the run of class characters after `&lt;` must be
      non-empty and be followed by `&gt;`. */
  function TagAsWrittenAt(s: string, i: nat): (m: Match)
    requires i < |s|
    ensures m.Match? <==>
      && OccursAt(s, "&lt;", i)
      && RunEnd(s, i + 4, NotInWrittenClass) > i + 4
      && OccursAt(s, "&gt;", RunEnd(s, i + 4, NotInWrittenClass))
    ensures m.Match? ==> m.group > 0 && i + m.group + m.tail <= |s|
    ensures m.Match? ==> (m.tail == 0 && m.group > 8
      && OccursAt(s, "&lt;", i) && OccursAt(s, "&gt;", i + m.group - 4)
      && forall k :: i + 4 <= k < i + m.group - 4 ==> NotInWrittenClass(s[k]))
  {
    if OccursAt(s, "&lt;", i) then
      var j := RunEnd(s, i + 4, NotInWrittenClass);
      if j > i + 4 && OccursAt(s, "&gt;", j) then Match(j + 4 - i, 0) else NoMatch
    else NoMatch
  }

  /** The tag pattern as intended: `&lt;`, a non-empty content that runs up to
      the first `&gt;`, and that `&gt;`. */
  function TagAt(s: string, i: nat): (m: Match)
    requires i < |s|
    ensures m.Match? <==> OccursAt(s, "&lt;", i) && i + 4 < GtFrom(s, i + 4) < |s|
    ensures m.Match? ==> m.group > 0 && i + m.group + m.tail <= |s|
    ensures m.Match? ==> (m.tail == 0 && m.group > 8
      && OccursAt(s, "&lt;", i) && OccursAt(s, "&gt;", i + m.group - 4)
      && forall k :: i + 4 <= k < i + m.group - 4 ==> !OccursAt(s, "&gt;", k))
  {
    if OccursAt(s, "&lt;", i) then
      var j := GtFrom(s, i + 4);
      if i + 4 < j < |s| then Match(j + 4 - i, 0) else NoMatch
    else NoMatch
  }

  /** `([.#]?[\w-]+)(\s*{)`: an optional `.` or `#`, a name, blanks and an opening
      brace; the name (with its prefix) is wrapped and the blanks and brace follow. */
  function SelectorAt(s: string, i: nat): (m: Match)
    requires i < |s|
    ensures m.Match? <==>
      var p := if s[i] == '.' || s[i] == '#' then i + 1 else i;
      var k := RunEnd(s, p, IsNameChar);
      k > p && RunEnd(s, k, IsSpace) < |s| && s[RunEnd(s, k, IsSpace)] == '{'
    ensures m.Match? && (s[i] == '.' || s[i] == '#') ==> m.group >= 2
    ensures m.Match? ==> m.group > 0 && i + m.group + m.tail <= |s|
    ensures m.Match? ==> (m.tail >= 1 && s[i + m.group + m.tail - 1] == '{'
      && (forall k :: i < k < i + m.group ==> IsNameChar(s[k]))
      && (s[i] == '.' || s[i] == '#' || IsNameChar(s[i]))
      && (forall k :: i + m.group <= k < i + m.group + m.tail - 1 ==> IsSpace(s[k])))
  {
    var p := if s[i] == '.' || s[i] == '#' then i + 1 else i;
    var k := RunEnd(s, p, IsNameChar);
    if k == p then NoMatch
    else
      var e := RunEnd(s, k, IsSpace);
      if e < |s| && s[e] == '{' then Match(k - i, e + 1 - k) else NoMatch
  }

  /** `([\w-]+)(\s*:)`: a name, blanks and a colon; the name is wrapped and the
      blanks and colon follow. */
  function PropertyAt(s: string, i: nat): (m: Match)
    requires i < |s|
    ensures m.Match? <==>
      var k := RunEnd(s, i, IsNameChar);
      k > i && RunEnd(s, k, IsSpace) < |s| && s[RunEnd(s, k, IsSpace)] == ':'
    ensures m.Match? ==> m.group > 0 && i + m.group + m.tail <= |s|
    ensures m.Match? ==> (m.tail >= 1 && s[i + m.group + m.tail - 1] == ':'
      && (forall k :: i <= k < i + m.group ==> IsNameChar(s[k]))
      && (forall k :: i + m.group <= k < i + m.group + m.tail - 1 ==> IsSpace(s[k])))
  {
    var k := RunEnd(s, i, IsNameChar);
    if k == i then NoMatch
    else
      var e := RunEnd(s, k, IsSpace);
      if e < |s| && s[e] == ':' then Match(k - i, e + 1 - k) else NoMatch
  }

  // ---------------------------------------------------------------------------
  // Passes

  datatype Pass = Keyword | Quoted | Variable | Tag | TagAsWritten | Selector | Property

  function Color(p: Pass): string {
    match p
    case Keyword => KeywordColor
    case Quoted => StringColor
    case Variable => VariableColor
    case Tag => TagColor
    case TagAsWritten => TagColor
    case Selector => SelectorColor
    case Property => PropertyColor
  }

  function MatchAt(p: Pass, s: string, i: nat): (m: Match)
    requires i < |s|
    ensures m.Match? ==> m.group > 0 && i + m.group + m.tail <= |s|
  {
    match p
    case Keyword => AlternationAt(s, i, Keywords)
    case Quoted => QuotedAt(s, i)
    case Variable => VariableAt(s, i)
    case Tag => TagAt(s, i)
    case TagAsWritten => TagAsWrittenAt(s, i)
    case Selector => SelectorAt(s, i)
    case Property => PropertyAt(s, i)
  }

  /** One step of the output of a replacement: a character copied as it is, or a
      match whose first group is wrapped and whose second group follows. */
  datatype Piece = Plain(c: char) | Wrapped(group: string, tail: string)

  /** The text a piece stands for, without markup. */
  function PieceText(x: Piece): string {
    match x
    case Plain(c) => [c]
    case Wrapped(g, t) => g + t
  }

  /** One step of the scan at position `i`: the piece produced there and the
      position where the scan resumes. */
  function StepAt(p: Pass, s: string, i: nat): (r: (Piece, nat))
    requires i < |s|
    ensures i < r.1 <= |s|
    ensures PieceText(r.0) == s[i..r.1]
  {
    match MatchAt(p, s, i)
    case NoMatch => (Plain(s[i]), i + 1)
    case Match(g, t) =>
      assert s[i..i + g] + s[i + g..i + g + t] == s[i..i + g + t];
      (Wrapped(s[i..i + g], s[i + g..i + g + t]), i + g + t)
  }

  /** The scan of a global replacement from position `i`. */
  function Scan(p: Pass, s: string, i: nat): seq<Piece>
    requires i <= |s|
    decreases |s| - i
  {
    if i == |s| then []
    else [StepAt(p, s, i).0] + Scan(p, s, StepAt(p, s, i).1)
  }

  function RenderPiece(color: string, x: Piece): string {
    match x
    case Plain(c) => [c]
    case Wrapped(g, t) => OpenTag(color) + g + CloseTag + t
  }

  /** The text the replacement produces from its pieces. */
  function Render(color: string, xs: seq<Piece>): string {
    if xs == [] then [] else RenderPiece(color, xs[0]) + Render(color, xs[1..])
  }

  /** The pieces without the markup the replacement inserted. */
  function Erase(xs: seq<Piece>): string {
    if xs == [] then [] else PieceText(xs[0]) + Erase(xs[1..])
  }

  /** One replacement pass over a whole text. */
  function ApplyPass(p: Pass, s: string): string {
    Render(Color(p), Scan(p, s, 0))
  }

  /** `highlightCode(code, category)`: the passes of the category, in order, each
      on the output of the previous one; any other category is left as it is.
      The HTML pass is the tag pattern as intended (see `TagAt`). */
  function HighlightCode(code: string, category: string): string {
    if category == "PHP" then
      ApplyPass(Variable, ApplyPass(Quoted, ApplyPass(Keyword, code)))
    else if category == "HTML" then
      ApplyPass(Tag, code)
    else if category == "CSS" then
      ApplyPass(Property, ApplyPass(Selector, code))
    else
      code
  }

  /** What the listing page puts into the code box of a snippet. */
  function RenderCode(code: string, category: string): string {
    HighlightCode(Escape(code), category)
  }

  // ---------------------------------------------------------------------------
  // Every pass only inserts markup

  /** Erasing the markup of a scan gives back the scanned text, for every input,
      including inputs that already hold markup of earlier passes. */
  lemma {:induction false} EraseScan(p: Pass, s: string, i: nat)
    requires i <= |s|
    ensures Erase(Scan(p, s, i)) == s[i..]
    decreases |s| - i
  {
    if i < |s| {
      var r := StepAt(p, s, i);
      ScanStep(p, s, i);
      EraseCons(r.0, Scan(p, s, r.1));
      EraseScan(p, s, r.1);
      assert s[i..r.1] + s[r.1..] == s[i..];
    }
  }

  /** The scan at a position inside the text is the piece of that step followed
      by the scan from where the step resumes. */
  lemma ScanStep(p: Pass, s: string, i: nat)
    requires i < |s|
    ensures Scan(p, s, i) == [StepAt(p, s, i).0] + Scan(p, s, StepAt(p, s, i).1)
  {
  }

  lemma EraseCons(x: Piece, xs: seq<Piece>)
    ensures Erase([x] + xs) == PieceText(x) + Erase(xs)
  {
    assert ([x] + xs)[1..] == xs;
  }

  /** Removes the opening tags of one colour and every closing tag. */
  function Strip(t: string, open: string): string
    requires |open| > 0
    decreases |t|
  {
    if t == [] then []
    else if OccursAt(t, open, 0) then Strip(t[|open|..], open)
    else if OccursAt(t, CloseTag, 0) then Strip(t[|CloseTag|..], open)
    else [t[0]] + Strip(t[1..], open)
  }

  lemma StripOpen(color: string, x: string)
    ensures Strip(OpenTag(color) + x, OpenTag(color)) == Strip(x, OpenTag(color))
  {
    var o := OpenTag(color);
    assert OccursAt(o + x, o, 0) by { assert (o + x)[..|o|] == o; }
    assert (o + x)[|o|..] == x;
  }

  lemma StripClose(color: string, x: string)
    ensures Strip(CloseTag + x, OpenTag(color)) == Strip(x, OpenTag(color))
  {
    var o := OpenTag(color);
    assert (CloseTag + x)[1] == '/';
    assert !OccursAt(CloseTag + x, o, 0);
    assert OccursAt(CloseTag + x, CloseTag, 0) by {
      assert (CloseTag + x)[..|CloseTag|] == CloseTag;
    }
    assert (CloseTag + x)[|CloseTag|..] == x;
  }

  /** Text without `<` passes through the strip unchanged. */
  lemma {:induction false} StripPlain(color: string, x: string, y: string)
    requires '<' !in x
    ensures Strip(x + y, OpenTag(color)) == x + Strip(y, OpenTag(color))
  {
    if x != [] {
      var o := OpenTag(color);
      var t := x + y;
      assert t[0] == x[0] != '<';
      assert !OccursAt(t, o, 0);
      assert !OccursAt(t, CloseTag, 0);
      assert t[1..] == x[1..] + y;
      assert Strip(t, o) == [t[0]] + Strip(t[1..], o);
      StripPlain(color, x[1..], y);
      assert x == [x[0]] + x[1..];
    } else {
      assert x + y == y;
    }
  }

  predicate PieceNoAngle(x: Piece) {
    '<' !in PieceText(x)
  }

  ghost predicate NoAngle(xs: seq<Piece>) {
    forall x :: x in xs ==> PieceNoAngle(x)
  }

  /** When the pieces carry no `<` of their own, stripping the rendered markup
      gives back the erased text. */
  lemma {:induction false} StripRender(color: string, xs: seq<Piece>)
    requires NoAngle(xs)
    ensures Strip(Render(color, xs), OpenTag(color)) == Erase(xs)
  {
    if xs != [] {
      var rest := Render(color, xs[1..]);
      assert PieceNoAngle(xs[0]);
      assert NoAngle(xs[1..]) by {
        forall x | x in xs[1..] ensures PieceNoAngle(x) {
          assert x in xs;
        }
      }
      StripRender(color, xs[1..]);
      match xs[0]
      case Plain(c) =>
        StripPlain(color, [c], rest);
      case Wrapped(g, t) =>
        StripWrapped(color, g, t, rest);
    }
  }

  /** Stripping a wrapped match leaves its two groups. */
  lemma StripWrapped(color: string, g: string, t: string, rest: string)
    requires '<' !in g + t
    ensures Strip(OpenTag(color) + g + CloseTag + t + rest, OpenTag(color))
            == g + t + Strip(rest, OpenTag(color))
  {
    assert '<' !in g && '<' !in t by {
      assert forall c :: c in g ==> c in g + t;
      assert forall c :: c in t ==> c in g + t;
    }
    var o := OpenTag(color);
    assert o + g + CloseTag + t + rest == o + (g + (CloseTag + (t + rest)));
    StripOpen(color, g + (CloseTag + (t + rest)));
    StripPlain(color, g, CloseTag + (t + rest));
    StripClose(color, t + rest);
    StripPlain(color, t, rest);
  }

  /** The pieces of a scan are slices of the scanned text. */
  lemma {:induction false} ScanNoAngle(p: Pass, s: string, i: nat)
    requires i <= |s| && '<' !in s
    ensures NoAngle(Scan(p, s, i))
    decreases |s| - i
  {
    if i < |s| {
      var (x, next) := StepAt(p, s, i);
      assert Scan(p, s, i) == [x] + Scan(p, s, next);
      ScanNoAngle(p, s, next);
      assert forall c :: c in s[i..next] ==> c in s;
    }
  }

  /** The round trip of one pass: on a text without `<` (every escaped text is
      one), removing the spans this pass inserted gives back the pass's input. */
  lemma PassRoundTrip(p: Pass, s: string)
    requires '<' !in s
    ensures Strip(ApplyPass(p, s), OpenTag(Color(p))) == s
  {
    ScanNoAngle(p, s, 0);
    StripRender(Color(p), Scan(p, s, 0));
    EraseScan(p, s, 0);
  }

  /** For HTML the whole rendering is one pass after the escape, so stripping
      its spans gives back the escaped code. */
  lemma HtmlRoundTrip(code: string)
    ensures Strip(RenderCode(code, "HTML"), OpenTag(TagColor)) == Escape(code)
  {
    EscapeRemovesAngles(code);
    PassRoundTrip(Tag, Escape(code));
  }

  /** A category other than PHP, HTML and CSS renders as the escaped code alone. */
  lemma OtherCategoryOnlyEscapes(code: string, category: string)
    requires category != "PHP" && category != "HTML" && category != "CSS"
    ensures HighlightCode(code, category) == code
    ensures RenderCode(code, category) == Escape(code)
    ensures '<' !in RenderCode(code, category) && '>' !in RenderCode(code, category)
  {
    EscapeRemovesAngles(code);
  }

  // ---------------------------------------------------------------------------
  // Later passes match inside earlier markup

  /** The PHP string pattern matches `"color: #569cd6"` inside the span that the
      keyword pass inserts, so the string pass wraps part of the keyword span's
      attribute. */
  lemma QuotedMatchesInsideKeywordSpan()
    ensures QuotedAt(OpenTag(KeywordColor), 12) == Match(16, 0)
  {
    var s := OpenTag(KeywordColor);
    assert s == "<span style=\"color: #569cd6\">";
    assert s[27] == '"' && s[12] == '"';
    assert forall k :: 13 <= k < 27 ==> NotQuote(s[k]);
    assert RunEnd(s, 13, NotQuote) == 27;
  }

  /** The CSS property pattern matches `color:` inside the span that the
      selector pass inserts. */
  lemma PropertyMatchesInsideSelectorSpan()
    ensures PropertyAt(OpenTag(SelectorColor), 13) == Match(5, 1)
  {
    var s := OpenTag(SelectorColor);
    assert s == "<span style=\"color: #dcdcaa\">";
    assert s[18] == ':' && s[12] == '"';
    assert forall k :: 13 <= k < 18 ==> IsNameChar(s[k]);
    assert RunEnd(s, 13, IsNameChar) == 18;
    assert RunEnd(s, 18, IsSpace) == 18;
  }

  // ---------------------------------------------------------------------------
  // The HTML tag class

  /** As written, an escaped tag whose name holds `g`, `t` or `;` is not matched
      at its `&lt;`: `<strong>`, `<table>` or `<style>` get no span. */
  lemma TagAsWrittenMissesNamesWithGT(name: string, rest: string, k: nat)
    requires k < |name| && !NotInWrittenClass(name[k])
    requires '>' !in name && '<' !in name && '&' !in name
    ensures TagAsWrittenAt(Escape("<" + name + ">") + rest, 0) == NoMatch
  {
    EscapeTag(name);
    var s := "&lt;" + name + "&gt;" + rest;
    assert OccursAt(s, "&lt;", 0) by { assert s[..4] == "&lt;"; }
    var j := RunEnd(s, 4, NotInWrittenClass);
    assert s[4 + k] == name[k];
    assert j <= 4 + k;
    assert s[j] == name[j - 4];
  }

  /** As intended, every escaped tag `<name>` whose name holds no `&` (nor `<`
      or `>`) is matched whole, whatever letters the name contains. */
  lemma TagWrapsEveryTag(name: string, rest: string)
    requires name != [] && '>' !in name && '<' !in name && '&' !in name
    ensures TagAt(Escape("<" + name + ">") + rest, 0) == Match(|name| + 8, 0)
  {
    EscapeTag(name);
    var s := "&lt;" + name + "&gt;" + rest;
    assert OccursAt(s, "&lt;", 0) by { assert s[..4] == "&lt;"; }
    assert OccursAt(s, "&gt;", |name| + 4) by { assert s[|name| + 4..|name| + 8] == "&gt;"; }
    forall k | 4 <= k < |name| + 4 ensures !OccursAt(s, "&gt;", k) {
      assert s[k] == name[k - 4];
    }
    assert GtFrom(s, 4) == |name| + 4;
  }

  /** The escape of a tag whose name holds no angle bracket. */
  lemma EscapeTag(name: string)
    requires '>' !in name && '<' !in name
    ensures Escape("<" + name + ">") == "&lt;" + name + "&gt;"
  {
    EscapeIsPerChar("<" + name + ">");
    EscapeEachAppend("<", name + ">");
    EscapeEachAppend(name, ">");
    assert "<" + name + ">" == "<" + (name + ">");
    EscapeEachPlain(name);
  }

  lemma {:induction false} EscapeEachAppend(a: string, b: string)
    ensures EscapeEach(a + b) == EscapeEach(a) + EscapeEach(b)
  {
    if a == [] {
      assert a + b == b;
    } else {
      assert (a + b)[1..] == a[1..] + b;
      EscapeEachAppend(a[1..], b);
    }
  }

  lemma {:induction false} EscapeEachPlain(s: string)
    requires '<' !in s && '>' !in s
    ensures EscapeEach(s) == s
  {
    if s != [] {
      EscapeEachPlain(s[1..]);
      assert [s[0]] + s[1..] == s;
    }
  }
}

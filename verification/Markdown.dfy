/**
  The Markdown renderer (src/components/Markdown.tsx:11-92): text is escaped first and marked up
  afterwards. The regular expressions are written out as matchers with their order of preference.
  Text is a sequence of Unicode scalar values.
 */
module Markdown {
  import opened Wrappers

  // ---------------------------------------------------------------------------
  // Character classes
  // ---------------------------------------------------------------------------

  /** `\s` of JavaScript's regular expressions. */
  predicate IsSpace(c: char) {
    || '\t' <= c <= '\r' || c == ' ' || c == '\U{A0}' || c == '\U{1680}' || '\U{2000}' <= c <= '\U{200A}'
    || c == '\U{2028}' || c == '\U{2029}' || c == '\U{202F}' || c == '\U{205F}' || c == '\U{3000}' || c == '\U{FEFF}'
  }

  /** The first position from `k` on whose character is in the class. */
  function Until(s: string, k: nat, stop: char -> bool): (r: nat)
    requires k <= |s|
    ensures k <= r <= |s| && (r < |s| ==> stop(s[r]))
    ensures forall i | k <= i < r :: !stop(s[i])
    decreases |s| - k
  {
    if k == |s| || stop(s[k]) then k else Until(s, k + 1, stop)
  }

  predicate StartsAt(s: string, k: nat, word: string) {
    k + |word| <= |s| && s[k..k + |word|] == word
  }

  // ---------------------------------------------------------------------------
  // Escaping
  // ---------------------------------------------------------------------------

  /** `replace` of every occurrence of a character. */
  function Replace(s: string, c: char, text: string): string {
    if s == [] then [] else (if s[0] == c then text else [s[0]]) + Replace(s[1..], c, text)
  }

  function EscapeHtml(src: string): string {
    Replace(Replace(Replace(Replace(src, '&', "&amp;"), '<', "&lt;"), '>', "&gt;"), '"', "&quot;")
  }

  // ---------------------------------------------------------------------------
  // Emphasis
  // ---------------------------------------------------------------------------

  predicate StarsAt(s: string, k: nat, w: nat) {
    k + w <= |s| && forall i | k <= i < k + w :: s[i] == '*'
  }

  /** The longest `\S[^*\n]*\S` from `k` that is followed by the marker and ends at `p` at the latest. */
  function LongestSpan(s: string, k: nat, p: nat, w: nat): (r: Option<nat>)
    requires k < p <= |s|
    ensures r.Some? ==> k < r.value && StarsAt(s, r.value, w)
    decreases p
  {
    if p < |s| && !IsSpace(s[p]) && StarsAt(s, p + 1, w) then Some(p + 1)
    else if p == k + 1 then None
    else LongestSpan(s, k, p - 1, w)
  }

  /** Where the content of a span that opens at `k` ends: `(\S[^*\n]*\S|\S)` between two markers. */
  function SpanAt(s: string, k: nat, w: nat): (r: Option<nat>)
    requires w > 0
    ensures r.Some? ==> StarsAt(s, k, w) && k + w < r.value && StarsAt(s, r.value, w)
  {
    if !StarsAt(s, k, w) || k + w >= |s| || IsSpace(s[k + w]) then None
    else
      var run := Until(s, k + w + 1, c => c == '*' || c == '\n');
      var long := LongestSpan(s, k + w, run, w);
      if long.Some? then long else if StarsAt(s, k + w + 1, w) then Some(k + w + 1) else None
  }

  function Wrap(s: string, k: nat, w: nat, open: string, close: string): string
    requires w > 0 && k <= |s|
    decreases |s| - k
  {
    if k == |s| then []
    else
      match SpanAt(s, k, w)
      case Some(end) => open + s[k + w..end] + close + Wrap(s, end + w, w, open, close)
      case None => [s[k]] + Wrap(s, k + 1, w, open, close)
  }

  function Emphasis(text: string): string {
    var strong := Wrap(text, 0, 2, "<strong>", "</strong>");
    Wrap(strong, 0, 1, "<em>", "</em>")
  }

  // ---------------------------------------------------------------------------
  // Links and code spans
  // ---------------------------------------------------------------------------

  /** Length of `https?://` at `k`, or 0. */
  function SchemeAt(s: string, k: nat): (n: nat)
    ensures n > 0 ==> k + n <= |s| && n >= 7 && s[k] == 'h'
  {
    if StartsAt(s, k, "https://") then 8 else if StartsAt(s, k, "http://") then 7 else 0
  }

  function LowerChar(c: char): char {
    if 'A' <= c <= 'Z' then c - 'A' + 'a' else c
  }

  function Lower(s: string): string {
    if s == [] then [] else [LowerChar(s[0])] + Lower(s[1..])
  }

  /** `/^https?:\/\/\S+$/i`. */
  predicate HttpUrl(url: string) {
    var n := SchemeAt(Lower(url), 0);
    n > 0 && n < |url| && forall c | c in url :: !IsSpace(c)
  }

  const LINK_OPEN := "<a href=\""
  const LINK_MIDDLE := "\" target=\"_blank\" rel=\"noreferrer\">"

  function LinkOrText(caption: string, url: string): string {
    if HttpUrl(url) then LINK_OPEN + url + LINK_MIDDLE + caption + "</a>" else caption + " (" + url + ")"
  }

  /** What `TOKEN` matched: a code span, a link whose label ends at `mid`, or a bare URL. */
  datatype Token = CodeSpan(end: nat) | LinkSpan(mid: nat, end: nat) | UrlSpan(end: nat)

  /** The rest of `\S+?\)` once its first character is taken: up to the first parenthesis. */
  function ClosingParen(s: string, k: nat): (r: Option<nat>)
    ensures r.Some? ==> k <= r.value < |s| && s[r.value] == ')' && forall i | k <= i < r.value :: !IsSpace(s[i])
    decreases |s| - k
  {
    if k >= |s| then None
    else if s[k] == ')' then Some(k)
    else if IsSpace(s[k]) then None
    else ClosingParen(s, k + 1)
  }

  ghost predicate Matches(s: string, k: nat, t: Token) {
    match t
    case CodeSpan(end) =>
      k + 2 < end <= |s| && s[k] == '`' && s[end - 1] == '`' && forall i | k < i < end - 1 :: s[i] != '\n'
    case LinkSpan(mid, end) =>
      && k < mid && mid + 3 < end <= |s| && s[k] == '[' && s[mid] == ']' && s[mid + 1] == '(' && s[end - 1] == ')'
      && (forall i | k < i < mid :: s[i] != '\n') && (forall i | mid + 2 <= i < end - 1 :: !IsSpace(s[i]))
    case UrlSpan(end) =>
      && k < end <= |s| && s[k] == 'h' && (forall i | k <= i < end :: !IsSpace(s[i]))
      && (end < |s| ==> IsSpace(s[end]))
  }

  function CodeAt(s: string, k: nat): (r: Option<Token>)
    requires k < |s|
    ensures r.Some? ==> Matches(s, k, r.value)
  {
    if s[k] != '`' then None
    else
      var end := Until(s, k + 1, c => c == '`' || c == '\n');
      if end > k + 1 && end < |s| && s[end] == '`' then Some(CodeSpan(end + 1)) else None
  }

  function LinkAt(s: string, k: nat): (r: Option<Token>)
    requires k < |s|
    ensures r.Some? ==> Matches(s, k, r.value)
  {
    if s[k] != '[' then None
    else
      var mid := Until(s, k + 1, c => c == ']' || c == '[' || c == '\n');
      if mid > k + 1 && mid + 2 < |s| && s[mid] == ']' && s[mid + 1] == '(' && !IsSpace(s[mid + 2]) then
        match ClosingParen(s, mid + 3)
        case Some(p) => Some(LinkSpan(mid, p + 1))
        case None => None
      else None
  }

  function UrlAt(s: string, k: nat): (r: Option<Token>)
    requires k < |s|
    ensures r.Some? ==> Matches(s, k, r.value)
  {
    var n := SchemeAt(s, k);
    if n == 0 then None
    else
      var end := Until(s, k + n, c => IsSpace(c));
      if end > k + n then
        SchemeHasNoSpace(s, k);
        Some(UrlSpan(end))
      else None
  }

  lemma SchemeHasNoSpace(s: string, k: nat)
    ensures forall i | k <= i < k + SchemeAt(s, k) :: !IsSpace(s[i])
  {
    var n := SchemeAt(s, k);
    if n > 0 {
      var word := if n == 8 then "https://" else "http://";
      assert s[k..k + n] == word;
      forall i | k <= i < k + n ensures !IsSpace(s[i]) {
        assert s[i] == word[i - k];
      }
    }
  }

  /** The first alternative of `TOKEN` that matches at `k`. */
  function TokenAt(s: string, k: nat): (r: Option<Token>)
    requires k < |s|
    ensures r.Some? ==> Matches(s, k, r.value)
  {
    if CodeAt(s, k).Some? then CodeAt(s, k)
    else if LinkAt(s, k).Some? then LinkAt(s, k)
    else UrlAt(s, k)
  }

  /** `TOKEN.exec`: the leftmost match from `k` on. */
  function NextToken(s: string, k: nat): (r: Option<(nat, Token)>)
    ensures r.Some? ==> k <= r.value.0 < |s| && r.value.0 < r.value.1.end <= |s| && Matches(s, r.value.0, r.value.1)
    decreases |s| - k
  {
    if k >= |s| then None
    else
      match TokenAt(s, k)
      case Some(t) => Some((k, t))
      case None => NextToken(s, k + 1)
  }

  function TokenHtml(s: string, k: nat, t: Token): string
    requires Matches(s, k, t)
  {
    match t
    case CodeSpan(end) => "<code>" + s[k + 1..end - 1] + "</code>"
    case LinkSpan(mid, end) => LinkOrText(s[k + 1..mid], s[mid + 2..end - 1])
    case UrlSpan(end) => LinkOrText(s[k..end], s[k..end])
  }

  function InlineFrom(esc: string, last: nat): string
    requires last <= |esc|
    decreases |esc| - last
  {
    match NextToken(esc, last)
    case None => Emphasis(esc[last..])
    case Some((k, t)) => Emphasis(esc[last..k]) + TokenHtml(esc, k, t) + InlineFrom(esc, t.end)
  }

  function RenderInline(src: string): string {
    Replace(InlineFrom(EscapeHtml(src), 0), '\n', "<br>")
  }

  lemma InlineStep(esc: string, last: nat)
    requires last <= |esc|
    ensures var m := NextToken(esc, last);
            InlineFrom(esc, last) ==
            if m.None? then Emphasis(esc[last..])
            else Emphasis(esc[last..m.value.0]) + TokenHtml(esc, m.value.0, m.value.1) + InlineFrom(esc, m.value.1.end)
  {
    hide Emphasis, TokenHtml, NextToken, Matches;
  }

  method RenderInlineMd(src: string) returns (html: string)
    ensures html == RenderInline(src)
  {
    var esc := EscapeHtml(src);
    var out: seq<string> := [];
    var last := 0;
    var m := NextToken(esc, last);
    assert RenderInline(src) == Replace(InlineFrom(esc, 0), '\n', "<br>");
    JoinPush([], "");
    assert Join([]) + InlineFrom(esc, 0) == InlineFrom(esc, 0);
    hide *;
    while m.Some?
      invariant last <= |esc| && m == NextToken(esc, last)
      invariant InlineFrom(esc, 0) == Join(out) + InlineFrom(esc, last)
      decreases |esc| - last
    {
      var (k, t) := m.value;
      InlineStep(esc, last);
      JoinTwo(out, Emphasis(esc[last..k]), TokenHtml(esc, k, t), InlineFrom(esc, t.end));
      out := out + [Emphasis(esc[last..k])];
      out := out + [TokenHtml(esc, k, t)];
      last := t.end;
      m := NextToken(esc, last);
    }
    InlineStep(esc, last);
    JoinPush(out, Emphasis(esc[last..]));
    out := out + [Emphasis(esc[last..])];
    html := Replace(Join(out), '\n', "<br>");
  }

  /** `join('')`. */
  function Join(parts: seq<string>): string {
    if parts == [] then "" else Join(parts[..|parts| - 1]) + parts[|parts| - 1]
  }

  lemma JoinPush(parts: seq<string>, part: string)
    ensures Join(parts + [part]) == Join(parts) + part
    ensures Join([]) == ""
  {
    assert (parts + [part])[..|parts|] == parts;
  }

  lemma JoinTwo(parts: seq<string>, a: string, b: string, rest: string)
    ensures Join(parts + [a] + [b]) + rest == Join(parts) + (a + b + rest)
  {
    JoinPush(parts, a);
    JoinPush(parts + [a], b);
    hide Join;
  }

  // ---------------------------------------------------------------------------
  // Safe output, piece by piece
  // ---------------------------------------------------------------------------

  /** Escaped text: a character that needs no escaping, or one of four entities. */
  datatype Atom = Char(c: char) | Amp | Lt | Gt | Quot

  datatype TagName =
    | StrongOpen | StrongClose | EmOpen | EmClose | CodeOpen | CodeClose | LinkClose | Break
    | ParagraphOpen | ParagraphClose | ListOpen | ListClose | ItemOpen | ItemClose
    | TitleOpen | TitleClose | SubtitleOpen | SubtitleClose | FenceOpen | FenceClose

  /** The output is made of these: escaped text, the module's own tags, and links. */
  datatype Piece = Atomic(a: Atom) | Tag(name: TagName) | Link(url: seq<Atom>)

  function ShowAtom(a: Atom): (r: string)
    ensures r != []
  {
    match a
    case Char(c) => [c]
    case Amp => "&amp;"
    case Lt => "&lt;"
    case Gt => "&gt;"
    case Quot => "&quot;"
  }

  function ShowTag(t: TagName): string {
    match t
    case StrongOpen => "<strong>"
    case StrongClose => "</strong>"
    case EmOpen => "<em>"
    case EmClose => "</em>"
    case CodeOpen => "<code>"
    case CodeClose => "</code>"
    case LinkClose => "</a>"
    case Break => "<br>"
    case ParagraphOpen => "<p>"
    case ParagraphClose => "</p>"
    case ListOpen => "<ul>"
    case ListClose => "</ul>"
    case ItemOpen => "<li>"
    case ItemClose => "</li>"
    case TitleOpen => "<h3>"
    case TitleClose => "</h3>"
    case SubtitleOpen => "<h4>"
    case SubtitleClose => "</h4>"
    case FenceOpen => "<pre>"
    case FenceClose => "</pre>"
  }

  function ShowText(atoms: seq<Atom>): string {
    if atoms == [] then [] else ShowAtom(atoms[0]) + ShowText(atoms[1..])
  }

  function ShowPiece(p: Piece): string {
    match p
    case Atomic(a) => ShowAtom(a)
    case Tag(t) => ShowTag(t)
    case Link(url) => LINK_OPEN + ShowText(url) + LINK_MIDDLE
  }

  function Show(ps: seq<Piece>): string {
    if ps == [] then [] else ShowPiece(ps[0]) + Show(ps[1..])
  }

  /** A character that may stand for itself: no angle bracket, quote or ampersand. */
  predicate Harmless(a: Atom) {
    a.Char? ==> a.c != '<' && a.c != '>' && a.c != '"' && a.c != '&'
  }

  predicate FinePiece(p: Piece) {
    match p
    case Atomic(a) => Harmless(a)
    case Tag(_) => true
    case Link(url) => (forall a | a in url :: Harmless(a)) && HttpUrl(ShowText(url))
  }

  predicate Fine(ps: seq<Piece>) {
    forall p | p in ps :: FinePiece(p)
  }

  predicate FineText(atoms: seq<Atom>) {
    forall a | a in atoms :: Harmless(a)
  }

  /** Escaped text interleaved with the module's own tags, and links to http addresses only. */
  ghost predicate Safe(html: string) {
    exists ps: seq<Piece> :: Fine(ps) && Show(ps) == html
  }

  ghost predicate Escaped(s: string) {
    exists atoms: seq<Atom> :: FineText(atoms) && ShowText(atoms) == s
  }

  lemma {:induction false} ShowTextConcat(a: seq<Atom>, b: seq<Atom>)
    ensures ShowText(a + b) == ShowText(a) + ShowText(b)
  {
    if a == [] {
      assert a + b == b;
    } else {
      assert (a + b)[1..] == a[1..] + b;
      ShowTextConcat(a[1..], b);
    }
  }

  lemma {:induction false} ShowConcat(a: seq<Piece>, b: seq<Piece>)
    ensures Show(a + b) == Show(a) + Show(b)
  {
    if a == [] {
      assert a + b == b;
    } else {
      assert (a + b)[1..] == a[1..] + b;
      ShowConcat(a[1..], b);
    }
  }

  lemma SafeConcat(a: string, b: string)
    requires Safe(a) && Safe(b)
    ensures Safe(a + b)
  {
    var ps: seq<Piece> :| Fine(ps) && Show(ps) == a;
    var qs: seq<Piece> :| Fine(qs) && Show(qs) == b;
    ShowConcat(ps, qs);
    assert Fine(ps + qs);
  }

  lemma TagIsSafe(t: TagName)
    ensures Safe(ShowTag(t))
  {
    assert Show([Tag(t)]) == ShowTag(t) + Show([]);
    assert Fine([Tag(t)]) && Show([Tag(t)]) == ShowTag(t);
  }

  // ---------------------------------------------------------------------------
  // Escaping is one character map, and loses nothing
  // ---------------------------------------------------------------------------

  function AtomOf(c: char): (r: Atom)
    ensures Harmless(r)
  {
    if c == '&' then Amp else if c == '<' then Lt else if c == '>' then Gt else if c == '"' then Quot else Char(c)
  }

  function AtomsOf(src: string): (r: seq<Atom>)
    ensures FineText(r)
  {
    if src == [] then [] else [AtomOf(src[0])] + AtomsOf(src[1..])
  }

  lemma {:induction false} ReplaceConcat(a: string, b: string, c: char, text: string)
    ensures Replace(a + b, c, text) == Replace(a, c, text) + Replace(b, c, text)
  {
    if a == [] {
      assert a + b == b;
    } else {
      assert (a + b)[1..] == a[1..] + b;
      ReplaceConcat(a[1..], b, c, text);
    }
  }

  lemma {:induction false} ReplaceNone(s: string, c: char, text: string)
    requires c !in s
    ensures Replace(s, c, text) == s
  {
    if s != [] {
      ReplaceNone(s[1..], c, text);
    }
  }

  lemma ReplaceChar(x: char, c: char, text: string)
    ensures Replace([x], c, text) == if x == c then text else [x]
  {
    assert [x][1..] == [];
  }

  lemma EntitiesArePlain()
    ensures '<' !in "&amp;" && '>' !in "&amp;" && '"' !in "&amp;"
    ensures '>' !in "&lt;" && '"' !in "&lt;" && '"' !in "&gt;"
  {
  }

  /** Each of the four passes leaves the entities of the passes before it alone. */
  lemma EscapeChar(c: char)
    ensures EscapeHtml([c]) == ShowAtom(AtomOf(c))
  {
    ReplaceChar(c, '&', "&amp;");
    ReplaceChar(c, '<', "&lt;");
    ReplaceChar(c, '>', "&gt;");
    ReplaceChar(c, '"', "&quot;");
    EntitiesArePlain();
    hide Replace;
    if c == '&' {
      ReplaceNone("&amp;", '<', "&lt;");
      ReplaceNone("&amp;", '>', "&gt;");
      ReplaceNone("&amp;", '"', "&quot;");
    } else if c == '<' {
      ReplaceNone("&lt;", '>', "&gt;");
      ReplaceNone("&lt;", '"', "&quot;");
    } else if c == '>' {
      ReplaceNone("&gt;", '"', "&quot;");
    }
  }

  lemma EscapeConcat(a: string, b: string)
    ensures EscapeHtml(a + b) == EscapeHtml(a) + EscapeHtml(b)
  {
    ReplaceConcat(a, b, '&', "&amp;");
    var a1, b1 := Replace(a, '&', "&amp;"), Replace(b, '&', "&amp;");
    ReplaceConcat(a1, b1, '<', "&lt;");
    var a2, b2 := Replace(a1, '<', "&lt;"), Replace(b1, '<', "&lt;");
    ReplaceConcat(a2, b2, '>', "&gt;");
    ReplaceConcat(Replace(a2, '>', "&gt;"), Replace(b2, '>', "&gt;"), '"', "&quot;");
  }

  /** The four ordered replacements are one map over the characters. */
  lemma {:induction false} EscapeIsOneMap(src: string)
    ensures EscapeHtml(src) == ShowText(AtomsOf(src))
  {
    if src != [] {
      assert src == [src[0]] + src[1..];
      EscapeConcat([src[0]], src[1..]);
      EscapeChar(src[0]);
      EscapeIsOneMap(src[1..]);
      hide EscapeHtml;
    }
  }

  /** What a browser reads back from escaped text. */
  function Unescape(s: string): string {
    if s == [] then []
    else if StartsAt(s, 0, "&amp;") then ['&'] + Unescape(s[5..])
    else if StartsAt(s, 0, "&lt;") then ['<'] + Unescape(s[4..])
    else if StartsAt(s, 0, "&gt;") then ['>'] + Unescape(s[4..])
    else if StartsAt(s, 0, "&quot;") then ['"'] + Unescape(s[6..])
    else [s[0]] + Unescape(s[1..])
  }

  lemma NotAt(s: string, word: string, i: nat)
    requires i < |s| && i < |word| && s[i] != word[i]
    ensures !StartsAt(s, 0, word)
  {
    if |word| <= |s| {
      assert s[0..|word|][i] == s[i];
    }
  }

  lemma HereAt(word: string, rest: string)
    requires word != []
    ensures StartsAt(word + rest, 0, word) && (word + rest)[|word|..] == rest && (word + rest)[0] == word[0]
    ensures |word| > 1 ==> (word + rest)[1] == word[1]
  {
  }

  lemma UnescapeAtom(c: char, rest: string)
    ensures Unescape(ShowAtom(AtomOf(c)) + rest) == [c] + Unescape(rest)
  {
    var word := ShowAtom(AtomOf(c));
    var s := word + rest;
    HereAt(word, rest);
    hide StartsAt;
    if AtomOf(c).Char? {
      NotAt(s, "&amp;", 0);
      NotAt(s, "&lt;", 0);
      NotAt(s, "&gt;", 0);
      NotAt(s, "&quot;", 0);
    } else if c == '<' {
      NotAt(s, "&amp;", 1);
    } else if c == '>' {
      NotAt(s, "&amp;", 1);
      NotAt(s, "&lt;", 1);
    } else if c == '"' {
      NotAt(s, "&amp;", 1);
      NotAt(s, "&lt;", 1);
      NotAt(s, "&gt;", 1);
    }
  }

  lemma {:induction false} UnescapeText(src: string)
    ensures Unescape(ShowText(AtomsOf(src))) == src
  {
    if src != [] {
      UnescapeText(src[1..]);
      UnescapeAtom(src[0], ShowText(AtomsOf(src[1..])));
      hide Unescape, ShowAtom, AtomOf;
      assert src == [src[0]] + src[1..];
    }
  }

  /** Escaping is invertible: no two texts look the same once escaped. */
  lemma EscapeRoundTrip(src: string)
    ensures Unescape(EscapeHtml(src)) == src && Escaped(EscapeHtml(src))
  {
    EscapeIsOneMap(src);
    UnescapeText(src);
    assert FineText(AtomsOf(src));
  }

  // ---------------------------------------------------------------------------
  // Cutting escaped text
  // ---------------------------------------------------------------------------

  /** A character that no entity contains, so text may be cut before and after it. */
  predicate Seam(c: char) {
    c !in {'&', ';', 'a', 'm', 'p', 'l', 't', 'g', 'q', 'u', 'o'}
  }

  lemma AtomSeams(a: Atom, i: nat)
    requires i < |ShowAtom(a)| && Seam(ShowAtom(a)[i])
    ensures a == Char(ShowAtom(a)[i]) && i == 0
  {
  }

  lemma ShowTextFirst(atoms: seq<Atom>, i: nat)
    requires atoms != [] && i <= |ShowText(atoms)|
    ensures var n := |ShowAtom(atoms[0])|;
            && n > 0 && ShowText(atoms) == ShowAtom(atoms[0]) + ShowText(atoms[1..])
            && (i < n ==> ShowText(atoms)[i] == ShowAtom(atoms[0])[i])
            && (i >= n ==>
                && i - n <= |ShowText(atoms[1..])|
                && ShowText(atoms)[..i] == ShowAtom(atoms[0]) + ShowText(atoms[1..])[..i - n]
                && ShowText(atoms)[i..] == ShowText(atoms[1..])[i - n..]
                && (i < |ShowText(atoms)| ==> ShowText(atoms)[i] == ShowText(atoms[1..])[i - n]))
  {
    hide ShowAtom;
  }

  lemma {:induction false} CutText(atoms: seq<Atom>, i: nat) returns (k: nat)
    requires i <= |ShowText(atoms)| && (i < |ShowText(atoms)| ==> Seam(ShowText(atoms)[i]))
    ensures k <= |atoms| && ShowText(atoms[..k]) == ShowText(atoms)[..i] && ShowText(atoms[k..]) == ShowText(atoms)[i..]
    ensures i < |ShowText(atoms)| ==> k < |atoms| && atoms[k] == Char(ShowText(atoms)[i])
  {
    k := 0;
    if atoms != [] {
      ShowTextFirst(atoms, i);
      if i < |ShowAtom(atoms[0])| {
        AtomSeams(atoms[0], i);
        hide ShowAtom, Seam;
      } else {
        hide ShowAtom, Seam;
        var j := CutText(atoms[1..], i - |ShowAtom(atoms[0])|);
        k := j + 1;
        assert atoms[..k][1..] == atoms[1..][..j] && atoms[..k][0] == atoms[0];
        ShowTextFirst(atoms[..k], 0);
        assert atoms[k..] == atoms[1..][j..];
      }
    }
  }

  lemma CutAtoms(atoms: seq<Atom>, i: nat)
    requires FineText(atoms) && i <= |ShowText(atoms)| && (i < |ShowText(atoms)| ==> Seam(ShowText(atoms)[i]))
    ensures Escaped(ShowText(atoms)[..i]) && Escaped(ShowText(atoms)[i..])
    ensures i < |ShowText(atoms)| ==> Escaped(ShowText(atoms)[i + 1..])
  {
    var s := ShowText(atoms);
    var k := CutText(atoms, i);
    assert FineText(atoms[..k]) && FineText(atoms[k..]);
    hide Escaped, Harmless, Seam;
    IsEscaped(atoms[..k]);
    IsEscaped(atoms[k..]);
    if i < |s| {
      ShowTextFirst(atoms[k..], 0);
      assert s[i + 1..] == s[i..][1..] == ShowText(atoms[k..][1..]);
      assert FineText(atoms[k..][1..]);
      IsEscaped(atoms[k..][1..]);
    }
  }

  lemma CutEscaped(s: string, i: nat)
    requires Escaped(s) && i <= |s| && (i < |s| ==> Seam(s[i]))
    ensures Escaped(s[..i]) && Escaped(s[i..]) && (i < |s| ==> Escaped(s[i + 1..]))
  {
    var atoms: seq<Atom> :| FineText(atoms) && ShowText(atoms) == s;
    hide *;
    CutAtoms(atoms, i);
  }

  lemma IsEscaped(atoms: seq<Atom>)
    requires FineText(atoms)
    ensures Escaped(ShowText(atoms))
  {
  }

  /** Cutting a suffix of the text, with positions counted in the whole. */
  lemma CutFrom(s: string, k: nat, i: nat)
    requires k <= i <= |s| && Escaped(s[k..]) && (i < |s| ==> Seam(s[i]))
    ensures Escaped(s[k..i]) && Escaped(s[i..]) && (i < |s| ==> Escaped(s[i + 1..]))
  {
    var u := s[k..];
    assert u[..i - k] == s[k..i] && u[i - k..] == s[i..];
    assert i < |s| ==> u[i - k] == s[i] && u[i - k + 1..] == s[i + 1..];
    hide Escaped, Seam;
    CutEscaped(u, i - k);
  }

  /** A slice between two seams of escaped text is escaped text. */
  lemma SliceFrom(s: string, k: nat, i: nat, j: nat)
    requires k <= i < j <= |s| && Escaped(s[k..]) && Seam(s[i]) && (j < |s| ==> Seam(s[j]))
    ensures Escaped(s[i + 1..j]) && Escaped(s[i..j]) && Escaped(s[j..])
  {
    hide Escaped, Seam;
    CutFrom(s, k, i);
    CutFrom(s, i, j);
    CutFrom(s, i + 1, j);
  }

  lemma SpacesAreSeams(c: char)
    requires IsSpace(c)
    ensures Seam(c)
  {
  }

  lemma {:induction false} AtomicText(atoms: seq<Atom>) returns (ps: seq<Piece>)
    requires FineText(atoms)
    ensures Plain(ps) && Show(ps) == ShowText(atoms)
  {
    if atoms == [] {
      ps := [];
    } else {
      ps := AtomicText(atoms[1..]);
      ps := [Atomic(atoms[0])] + ps;
    }
  }

  // ---------------------------------------------------------------------------
  // Emphasis cuts only at stars
  // ---------------------------------------------------------------------------

  /** No links: what emphasis works on. */
  predicate Plain(ps: seq<Piece>) {
    forall p | p in ps :: FinePiece(p) && !p.Link?
  }

  ghost predicate Marked(s: string) {
    exists ps: seq<Piece> :: Plain(ps) && Show(ps) == s
  }

  lemma EscapedIsMarked(s: string)
    requires Escaped(s)
    ensures Marked(s)
  {
    var atoms: seq<Atom> :| FineText(atoms) && ShowText(atoms) == s;
    var ps := AtomicText(atoms);
  }

  lemma MarkedIsSafe(s: string)
    requires Marked(s)
    ensures Safe(s)
  {
    var ps: seq<Piece> :| Plain(ps) && Show(ps) == s;
    assert Fine(ps);
  }

  lemma MarkedConcat(a: string, b: string)
    requires Marked(a) && Marked(b)
    ensures Marked(a + b)
  {
    var ps: seq<Piece> :| Plain(ps) && Show(ps) == a;
    var qs: seq<Piece> :| Plain(qs) && Show(qs) == b;
    ShowConcat(ps, qs);
    assert Plain(ps + qs);
  }

  lemma TagIsMarked(t: TagName)
    ensures Marked(ShowTag(t))
  {
    assert Show([Tag(t)]) == ShowTag(t) + Show([]);
    assert Plain([Tag(t)]) && Show([Tag(t)]) == ShowTag(t);
  }

  lemma PieceHasNoStar(p: Piece)
    requires !p.Link? && p != Atomic(Char('*'))
    ensures '*' !in ShowPiece(p) && ShowPiece(p) != []
  {
  }

  /** Marked text begins with a star, or with a piece that has none. */
  lemma FirstPiece(s: string) returns (n: nat)
    requires Marked(s) && s != []
    ensures 1 <= n <= |s| && Marked(s[..n]) && Marked(s[n..])
    ensures (n == 1 && s[0] == '*') || forall i | 0 <= i < n :: s[i] != '*'
  {
    var ps: seq<Piece> :| Plain(ps) && Show(ps) == s;
    var p := ps[0];
    n := |ShowPiece(p)|;
    assert s[..n] == ShowPiece(p) && s[n..] == Show(ps[1..]);
    assert Show([p]) == ShowPiece(p) + Show([]);
    assert Plain([p]) && Show([p]) == s[..n];
    assert Plain(ps[1..]);
    if p != Atomic(Char('*')) {
      PieceHasNoStar(p);
      assert forall i | 0 <= i < n :: s[i] == ShowPiece(p)[i];
    }
  }

  lemma Nothing()
    ensures Marked("")
  {
    assert Plain([]) && Show([]) == "";
  }

  lemma {:induction false} CutMarked(s: string, i: nat)
    requires Marked(s) && i <= |s| && (i < |s| ==> s[i] == '*')
    ensures Marked(s[..i]) && Marked(s[i..]) && (i < |s| ==> Marked(s[i + 1..]))
    decreases |s|
  {
    hide *;
    Nothing();
    assert i == 0 ==> s[..i] == "" && s[i..] == s;
    if s == [] {
    } else {
      var n := FirstPiece(s);
      if i == 0 {
        assert n == 1;
      } else {
        CutMarked(s[n..], i - n);
        CutAfterPiece(s, n, i);
      }
    }
  }

  lemma CutAfterPiece(s: string, n: nat, i: nat)
    requires n <= i <= |s| && Marked(s[..n])
    requires Marked(s[n..][..i - n]) && Marked(s[n..][i - n..]) && (i < |s| ==> Marked(s[n..][i - n + 1..]))
    ensures Marked(s[..i]) && Marked(s[i..]) && (i < |s| ==> Marked(s[i + 1..]))
  {
    hide *;
    var u := s[n..];
    assert s[..i] == s[..n] + u[..i - n] && s[i..] == u[i - n..];
    assert i < |s| ==> s[i + 1..] == u[i - n + 1..];
    MarkedConcat(s[..n], u[..i - n]);
  }

  lemma CutMarkedFrom(s: string, k: nat, i: nat)
    requires k <= i <= |s| && Marked(s[k..]) && (i < |s| ==> s[i] == '*')
    ensures Marked(s[k..i]) && Marked(s[i..]) && (i < |s| ==> Marked(s[i + 1..]))
  {
    var u := s[k..];
    assert u[..i - k] == s[k..i] && u[i - k..] == s[i..];
    assert i < |s| ==> u[i - k] == s[i] && u[i - k + 1..] == s[i + 1..];
    hide Marked;
    CutMarked(u, i - k);
  }

  /** Stars can be dropped from the front. */
  lemma {:induction false} DropStars(s: string, k: nat, w: nat)
    requires k + w <= |s| && Marked(s[k..]) && StarsAt(s, k, w)
    ensures Marked(s[k + w..])
    decreases w
  {
    hide Marked;
    if w > 0 {
      CutMarkedFrom(s, k, k);
      DropStars(s, k + 1, w - 1);
    }
  }

  lemma WrapStep(s: string, k: nat, w: nat, open: string, close: string)
    requires w > 0 && k < |s|
    ensures var span := SpanAt(s, k, w);
            Wrap(s, k, w, open, close) ==
            if span.None? then [s[k]] + Wrap(s, k + 1, w, open, close)
            else open + s[k + w..span.value] + close + Wrap(s, span.value + w, w, open, close)
    ensures s[k] != '*' ==> SpanAt(s, k, w).None?
  {
    assert StarsAt(s, k, w) ==> s[k] == '*';
    hide StarsAt;
  }

  lemma FirstOfSlice(s: string, k: nat, end: nat)
    requires k < end <= |s|
    ensures s[k..end] == [s[k]] + s[k + 1..end]
  {
  }

  lemma {:induction false} WrapSkips(s: string, k: nat, n: nat, w: nat, open: string, close: string)
    requires w > 0 && k + n <= |s| && forall i | k <= i < k + n :: s[i] != '*'
    ensures Wrap(s, k, w, open, close) == s[k..k + n] + Wrap(s, k + n, w, open, close)
    decreases n
  {
    hide *;
    if n > 0 {
      WrapStep(s, k, w, open, close);
      WrapSkips(s, k + 1, n - 1, w, open, close);
      FirstOfSlice(s, k, k + n);
    }
  }

  /** A position at which no span opens: the piece that starts there is copied. */
  lemma WrapCopies(s: string, k: nat, w: nat, open: string, close: string) returns (n: nat)
    requires w > 0 && k < |s| && Marked(s[k..]) && SpanAt(s, k, w).None?
    ensures 1 <= n <= |s| - k && Marked(s[k..k + n]) && Marked(s[k + n..])
    ensures Wrap(s, k, w, open, close) == s[k..k + n] + Wrap(s, k + n, w, open, close)
  {
    hide *;
    var u := s[k..];
    n := FirstPiece(u);
    assert u[n..] == s[k + n..] && u[..n] == s[k..k + n];
    assert forall i | k <= i < k + n :: s[i] == u[i - k];
    if s[k] == '*' {
      WrapStep(s, k, w, open, close);
      assert s[k..k + 1] == [s[k]];
    } else {
      WrapSkips(s, k, n, w, open, close);
    }
  }

  lemma FourMarked(a: string, b: string, c: string, d: string)
    requires Marked(a) && Marked(b) && Marked(c) && Marked(d)
    ensures Marked(a + b + c + d)
  {
    hide *;
    MarkedConcat(a, b);
    MarkedConcat(a + b, c);
    MarkedConcat(a + b + c, d);
  }

  lemma WrapEnd(s: string, w: nat, open: string, close: string)
    requires w > 0
    ensures Wrap(s, |s|, w, open, close) == "" && Marked("")
  {
    Nothing();
  }

  lemma {:induction false} WrapMarked(s: string, k: nat, w: nat, open: string, close: string)
    requires w > 0 && k <= |s| && Marked(s[k..]) && Marked(open) && Marked(close)
    ensures Marked(Wrap(s, k, w, open, close))
    decreases |s| - k
  {
    hide *;
    if k == |s| {
      WrapEnd(s, w, open, close);
    } else if SpanAt(s, k, w).None? {
      var n := WrapCopies(s, k, w, open, close);
      WrapMarked(s, k + n, w, open, close);
      MarkedConcat(s[k..k + n], Wrap(s, k + n, w, open, close));
    } else {
      var end := SpanAt(s, k, w).value;
      SpanMarked(s, k, w, end);
      WrapMarked(s, end + w, w, open, close);
      FourMarked(open, s[k + w..end], close, Wrap(s, end + w, w, open, close));
      WrapStep(s, k, w, open, close);
    }
  }

  /** What a span encloses, and what follows it, is marked text. */
  lemma SpanMarked(s: string, k: nat, w: nat, end: nat)
    requires w > 0 && k < |s| && Marked(s[k..]) && StarsAt(s, k, w) && k + w < end && StarsAt(s, end, w)
    ensures end + w <= |s| && Marked(s[k + w..end]) && Marked(s[end + w..])
  {
    hide *;
    AdjacentStars(s, end, w);
    DropStars(s, k, w);
    CutMarkedFrom(s, k + w, end);
    DropStars(s, end, w);
  }

  /** Both passes leave whole tags whole: what they cut out lies between stars. */
  lemma EmphasisMarked(text: string)
    requires Escaped(text)
    ensures Marked(Emphasis(text))
  {
    EscapedIsMarked(text);
    assert text[0..] == text;
    TagIsMarked(StrongOpen);
    TagIsMarked(StrongClose);
    TagIsMarked(EmOpen);
    TagIsMarked(EmClose);
    var strong := Wrap(text, 0, 2, "<strong>", "</strong>");
    hide Marked, Wrap;
    WrapMarked(text, 0, 2, "<strong>", "</strong>");
    assert strong[0..] == strong;
    WrapMarked(strong, 0, 1, "<em>", "</em>");
  }

  // ---------------------------------------------------------------------------
  // The inline output
  // ---------------------------------------------------------------------------

  lemma EscapedIsSafe(s: string)
    requires Escaped(s)
    ensures Safe(s)
  {
    EscapedIsMarked(s);
    MarkedIsSafe(s);
  }

  lemma PlainTextIsEscaped(s: string)
    requires forall c | c in s :: c != '<' && c != '>' && c != '"' && c != '&'
    ensures Escaped(s)
  {
    var atoms := AtomsOf(s);
    PlainAtoms(s);
  }

  lemma {:induction false} PlainAtoms(s: string)
    requires forall c | c in s :: c != '<' && c != '>' && c != '"' && c != '&'
    ensures ShowText(AtomsOf(s)) == s
  {
    if s != [] {
      assert forall c | c in s[1..] :: c in s;
      PlainAtoms(s[1..]);
      assert s == [s[0]] + s[1..] && s[0] in s;
    }
  }

  lemma HttpLinkIsSafe(caption: string, url: string)
    requires Escaped(caption) && Escaped(url) && HttpUrl(url)
    ensures Safe(LINK_OPEN + url + LINK_MIDDLE + caption + "</a>")
  {
    EscapedIsSafe(caption);
    TagIsSafe(LinkClose);
    var atoms: seq<Atom> :| FineText(atoms) && ShowText(atoms) == url;
    OneLink(atoms);
    hide Safe, Escaped, HttpUrl;
    SafeConcat(LINK_OPEN + url + LINK_MIDDLE, caption);
    SafeConcat(LINK_OPEN + url + LINK_MIDDLE + caption, "</a>");
  }

  lemma OneLink(url: seq<Atom>)
    requires FineText(url) && HttpUrl(ShowText(url))
    ensures Safe(LINK_OPEN + ShowText(url) + LINK_MIDDLE)
  {
    hide HttpUrl;
    var ps := [Link(url)];
    assert Show(ps) == ShowPiece(ps[0]) + Show([]);
    assert Fine(ps) && Show(ps) == LINK_OPEN + ShowText(url) + LINK_MIDDLE;
  }

  lemma LinkIsSafe(caption: string, url: string)
    requires Escaped(caption) && Escaped(url)
    ensures Safe(LinkOrText(caption, url))
  {
    hide Safe, Escaped, HttpUrl;
    if HttpUrl(url) {
      HttpLinkIsSafe(caption, url);
    } else {
      EscapedIsSafe(caption);
      EscapedIsSafe(url);
      PlainTextIsEscaped(" (");
      PlainTextIsEscaped(")");
      EscapedIsSafe(" (");
      EscapedIsSafe(")");
      SafeConcat(caption, " (");
      SafeConcat(caption + " (", url);
      SafeConcat(caption + " (" + url, ")");
    }
  }

  lemma CodeIsSafe(s: string)
    requires Escaped(s)
    ensures Safe("<code>" + s + "</code>")
  {
    EscapedIsSafe(s);
    TagIsSafe(CodeOpen);
    TagIsSafe(CodeClose);
    hide Safe, Escaped;
    SafeConcat("<code>", s);
    SafeConcat("<code>" + s, "</code>");
  }

  lemma CodeTokenIsSafe(s: string, k: nat, end: nat)
    requires Matches(s, k, CodeSpan(end)) && k <= |s| && Escaped(s[k..])
    ensures Safe(TokenHtml(s, k, CodeSpan(end))) && end <= |s| && Escaped(s[end..])
  {
    assert k + 2 < end <= |s| && Seam(s[k]) && Seam(s[end - 1]);
    assert TokenHtml(s, k, CodeSpan(end)) == "<code>" + s[k + 1..end - 1] + "</code>";
    hide *;
    SliceFrom(s, k, k, end - 1);
    CutFrom(s, k, end - 1);
    CodeIsSafe(s[k + 1..end - 1]);
  }

  lemma LinkSeams(s: string, k: nat, mid: nat, end: nat)
    requires Matches(s, k, LinkSpan(mid, end))
    ensures k < mid && mid + 3 < end <= |s| && Seam(s[k]) && Seam(s[mid]) && Seam(s[mid + 1]) && Seam(s[end - 1])
    ensures TokenHtml(s, k, LinkSpan(mid, end)) == LinkOrText(s[k + 1..mid], s[mid + 2..end - 1])
  {
    hide LinkOrText;
  }

  lemma LinkTokenIsSafe(s: string, k: nat, mid: nat, end: nat)
    requires Matches(s, k, LinkSpan(mid, end)) && k <= |s| && Escaped(s[k..])
    ensures Safe(TokenHtml(s, k, LinkSpan(mid, end))) && end <= |s| && Escaped(s[end..])
  {
    hide *;
    LinkSeams(s, k, mid, end);
    LinkParts(s, k, mid, end);
    LinkIsSafe(s[k + 1..mid], s[mid + 2..end - 1]);
  }

  lemma LinkParts(s: string, k: nat, mid: nat, end: nat)
    requires k < mid && mid + 3 < end <= |s| && Seam(s[k]) && Seam(s[mid]) && Seam(s[mid + 1]) && Seam(s[end - 1])
    requires Escaped(s[k..])
    ensures Escaped(s[k + 1..mid]) && Escaped(s[mid + 2..end - 1]) && Escaped(s[end..])
  {
    hide *;
    SliceFrom(s, k, k, mid);
    SliceFrom(s, mid, mid + 1, end - 1);
    CutFrom(s, end - 1, end - 1);
  }

  lemma UrlTokenIsSafe(s: string, k: nat, end: nat)
    requires Matches(s, k, UrlSpan(end)) && k <= |s| && Escaped(s[k..])
    ensures Safe(TokenHtml(s, k, UrlSpan(end))) && end <= |s| && Escaped(s[end..])
  {
    assert k < end <= |s| && Seam(s[k]) && (end < |s| ==> IsSpace(s[end]));
    assert TokenHtml(s, k, UrlSpan(end)) == LinkOrText(s[k..end], s[k..end]);
    hide *;
    if end < |s| {
      SpacesAreSeams(s[end]);
    }
    SliceFrom(s, k, k, end);
    LinkIsSafe(s[k..end], s[k..end]);
  }

  /** A token is safe, and text may be cut before and after it. */
  lemma TokenIsSafe(s: string, k: nat, t: Token)
    requires Matches(s, k, t) && k <= |s| && Escaped(s[k..])
    ensures Safe(TokenHtml(s, k, t)) && t.end <= |s| && Escaped(s[t.end..])
  {
    hide *;
    match t
    case CodeSpan(end) => CodeTokenIsSafe(s, k, end);
    case LinkSpan(mid, end) => LinkTokenIsSafe(s, k, mid, end);
    case UrlSpan(end) => UrlTokenIsSafe(s, k, end);
  }

  lemma TokenStartIsSeam(s: string, k: nat, t: Token)
    requires Matches(s, k, t)
    ensures k < |s| && Seam(s[k])
  {
  }

  lemma {:induction false} InlineFromIsSafe(esc: string, last: nat)
    requires last <= |esc| && Escaped(esc[last..])
    ensures Safe(InlineFrom(esc, last))
    decreases |esc| - last
  {
    InlineStep(esc, last);
    var m := NextToken(esc, last);
    if m.None? {
      EmphasisMarked(esc[last..]);
      MarkedIsSafe(Emphasis(esc[last..]));
    } else {
      var (k, t) := m.value;
      TokenStartIsSeam(esc, k, t);
      hide Safe, Escaped, Marked, Seam, InlineFrom, NextToken, Emphasis, TokenHtml;
      CutFrom(esc, last, k);
      EmphasisMarked(esc[last..k]);
      MarkedIsSafe(Emphasis(esc[last..k]));
      TokenIsSafe(esc, k, t);
      InlineFromIsSafe(esc, t.end);
      SafeConcat(Emphasis(esc[last..k]), TokenHtml(esc, k, t));
      SafeConcat(Emphasis(esc[last..k]) + TokenHtml(esc, k, t), InlineFrom(esc, t.end));
    }
  }

  lemma TagHasNoNewline(t: TagName)
    ensures '\n' !in ShowTag(t)
  {
  }

  lemma LinkHasNoNewline(url: string)
    requires HttpUrl(url)
    ensures '\n' !in LINK_OPEN + url + LINK_MIDDLE
  {
    assert IsSpace('\n') && forall c | c in url :: !IsSpace(c);
    hide HttpUrl, IsSpace;
    assert '\n' !in LINK_OPEN && '\n' !in LINK_MIDDLE;
  }

  lemma OneLine(p: Piece)
    requires FinePiece(p) && p != Atomic(Char('\n'))
    ensures '\n' !in ShowPiece(p)
  {
    hide ShowTag, ShowText, HttpUrl;
    match p
    case Atomic(a) =>
    case Tag(t) => TagHasNoNewline(t);
    case Link(atoms) => LinkHasNoNewline(ShowText(atoms));
  }

  lemma PieceBreaks(p: Piece)
    requires FinePiece(p)
    ensures Safe(Replace(ShowPiece(p), '\n', "<br>"))
  {
    if p == Atomic(Char('\n')) {
      ReplaceChar('\n', '\n', "<br>");
      TagIsSafe(Break);
    } else {
      OneLine(p);
      hide FinePiece, ShowPiece, Replace;
      var s := ShowPiece(p);
      ReplaceNone(s, '\n', "<br>");
      assert Show([p]) == s + Show([]);
      assert Fine([p]) && Show([p]) == s;
    }
  }

  lemma {:induction false} BreaksAreSafe(ps: seq<Piece>)
    requires Fine(ps)
    ensures Safe(Replace(Show(ps), '\n', "<br>"))
  {
    if ps == [] {
      assert Fine([]) && Show([]) == [];
    } else {
      PieceBreaks(ps[0]);
      BreaksAreSafe(ps[1..]);
      ReplaceConcat(ShowPiece(ps[0]), Show(ps[1..]), '\n', "<br>");
      SafeConcat(Replace(ShowPiece(ps[0]), '\n', "<br>"), Replace(Show(ps[1..]), '\n', "<br>"));
    }
  }

  /**
    Whatever the text, the inline output is escaped text interleaved with the module's own tags
    only, and every link leads to an http address without a quote, a bracket or white space in it.
   */
  lemma InlineIsSafe(src: string)
    ensures Safe(RenderInline(src))
  {
    EscapeRoundTrip(src);
    var esc := EscapeHtml(src);
    assert esc[0..] == esc;
    InlineFromIsSafe(esc, 0);
    var ps: seq<Piece> :| Fine(ps) && Show(ps) == InlineFrom(esc, 0);
    BreaksAreSafe(ps);
  }

  // ---------------------------------------------------------------------------
  // What the markup means
  // ---------------------------------------------------------------------------

  lemma {:induction false} WrapNothing(s: string, k: nat, w: nat, open: string, close: string)
    requires w > 0 && k <= |s| && forall i | k <= i < |s| :: SpanAt(s, i, w).None?
    ensures Wrap(s, k, w, open, close) == s[k..]
    decreases |s| - k
  {
    hide SpanAt;
    if k < |s| {
      WrapNothing(s, k + 1, w, open, close);
      assert s[k..] == [s[k]] + s[k + 1..];
    }
  }

  lemma AdjacentStars(s: string, k: nat, w: nat)
    requires w > 0 && StarsAt(s, k, w)
    ensures k + w <= |s| && s[k] == '*' && (w > 1 ==> s[k + 1] == '*')
  {
  }

  lemma NoSpan(s: string, k: nat, w: nat)
    requires w > 0 && k < |s| && (s[k] == '*' ==> k + 1 == |s| || IsSpace(s[k + 1]))
    ensures SpanAt(s, k, w).None?
  {
    hide LongestSpan, Until;
    if StarsAt(s, k, w) {
      AdjacentStars(s, k, w);
    }
  }

  /** Stars that are followed by white space, as in `2 * 3`, stay literal. */
  lemma SpacedStarsStayLiteral(text: string)
    requires forall i | 0 <= i < |text| && text[i] == '*' :: i + 1 == |text| || IsSpace(text[i + 1])
    ensures Emphasis(text) == text
  {
    forall i | 0 <= i < |text| ensures SpanAt(text, i, 2).None? && SpanAt(text, i, 1).None? {
      NoSpan(text, i, 2);
      NoSpan(text, i, 1);
    }
    hide SpanAt, Wrap;
    WrapNothing(text, 0, 2, "<strong>", "</strong>");
    WrapNothing(text, 0, 1, "<em>", "</em>");
    assert text[0..] == text;
  }

  /** Text that two markers may enclose: it hugs them, on one line, without a star in it. */
  predicate Hugging(x: string) {
    x != "" && !IsSpace(x[0]) && !IsSpace(x[|x| - 1]) && '*' !in x && '\n' !in x
  }

  lemma {:induction false} UntilStops(s: string, k: nat, stop: char -> bool, end: nat)
    requires k <= end <= |s| && (end < |s| ==> stop(s[end])) && forall i | k <= i < end :: !stop(s[i])
    ensures Until(s, k, stop) == end
    decreases end - k
  {
    if k < end {
      UntilStops(s, k + 1, stop, end);
    }
  }

  lemma SpanParts(s: string, x: string, w: nat, stars: string)
    requires w == 1 || w == 2
    requires Hugging(x) && stars == (if w == 2 then "**" else "*") && s == stars + x + stars
    ensures StarsAt(s, 0, w) && StarsAt(s, w + |x|, w) && !StarsAt(s, w + |x| + 1, w)
    ensures |s| == |x| + 2 * w && s[w] == x[0] && s[w + |x| - 1] == x[|x| - 1] && s[w + |x|] == '*'
    ensures forall i | w <= i < w + |x| :: s[i] == x[i - w] && s[i] != '*' && s[i] != '\n'
  {
    assert forall i | w <= i < w + |x| :: s[i] == x[i - w] && s[i] in x;
  }

  /** A span of hugging text between two markers is found whole. */
  lemma SpanOf(s: string, x: string, w: nat, stars: string)
    requires w == 1 || w == 2
    requires Hugging(x) && stars == (if w == 2 then "**" else "*") && s == stars + x + stars
    ensures SpanAt(s, 0, w) == Some(w + |x|)
  {
    var end := w + |x|;
    SpanParts(s, x, w, stars);
    UntilStops(s, w + 1, c => c == '*' || c == '\n', end);
    hide Until, IsSpace, StarsAt;
    if |x| > 1 {
      assert LongestSpan(s, w, end - 1, w) == Some(end);
    }
  }

  lemma StarFree(s: string, w: nat, open: string, close: string)
    requires w > 0 && '*' !in s
    ensures Wrap(s, 0, w, open, close) == s
  {
    forall i | 0 <= i < |s| ensures SpanAt(s, i, w).None? {
      assert s[i] in s;
      NoSpan(s, i, w);
    }
    hide SpanAt, Wrap;
    WrapNothing(s, 0, w, open, close);
    assert s[0..] == s;
  }

  lemma WrapOne(s: string, x: string, w: nat, stars: string, open: string, close: string)
    requires w == 1 || w == 2
    requires Hugging(x) && stars == (if w == 2 then "**" else "*") && s == stars + x + stars
    ensures Wrap(s, 0, w, open, close) == open + x + close
  {
    SpanOf(s, x, w, stars);
    WrapStep(s, 0, w, open, close);
    assert s[w..w + |x|] == x && w + |x| + w == |s|;
    WrapEnd(s, w, open, close);
    hide Wrap, SpanAt, Hugging;
  }

  /** Two stars make hugging text strong. */
  lemma DoubleStarsAreStrong(x: string)
    requires Hugging(x)
    ensures Emphasis("**" + x + "**") == "<strong>" + x + "</strong>"
  {
    WrapOne("**" + x + "**", x, 2, "**", "<strong>", "</strong>");
    var strong := "<strong>" + x + "</strong>";
    assert '*' !in "<strong>" && '*' !in "</strong>";
    assert '*' !in strong;
    StarFree(strong, 1, "<em>", "</em>");
    hide Wrap, Hugging;
  }

  /** One star emphasises it. */
  lemma SingleStarsAreEmphasis(x: string)
    requires Hugging(x)
    ensures Emphasis("*" + x + "*") == "<em>" + x + "</em>"
  {
    var s := "*" + x + "*";
    forall i | 0 <= i < |s| ensures SpanAt(s, i, 2).None? {
      assert 0 < i < |s| - 1 ==> s[i] == x[i - 1] && s[i] in x;
      assert i == 0 ==> s[1] == x[0] && s[1] in x;
      if StarsAt(s, i, 2) {
        AdjacentStars(s, i, 2);
      }
      hide LongestSpan, Until, IsSpace;
    }
    WrapNothing(s, 0, 2, "<strong>", "</strong>");
    assert s[0..] == s;
    WrapOne(s, x, 1, "*", "<em>", "</em>");
    hide Wrap, SpanAt, Hugging;
  }

  /** A character that is in no entity is in the escaped text only if it is in the text. */
  lemma {:induction false} EscapedKeepsOut(src: string, c: char)
    requires c !in src && Seam(c)
    ensures c !in ShowText(AtomsOf(src))
  {
    if src != [] {
      assert forall x | x in src[1..] :: x in src;
      EscapedKeepsOut(src[1..], c);
      assert src[0] in src;
      AtomKeepsOut(AtomOf(src[0]), c);
      hide ShowAtom, AtomOf, Seam;
    }
  }

  lemma AtomKeepsOut(a: Atom, c: char)
    requires Seam(c) && a != Char(c)
    ensures c !in ShowAtom(a)
  {
  }

  lemma WordAt(s: string, k: nat, word: string, i: nat)
    requires StartsAt(s, k, word) && i < |word|
    ensures k + i < |s| && s[k + i] == word[i] && word[i] in s
  {
    assert s[k..k + |word|][i] == s[k + i];
  }

  lemma NoTokenAt(s: string, k: nat)
    requires k < |s| && '`' !in s && '[' !in s && ':' !in s
    ensures TokenAt(s, k).None?
  {
    assert s[k] in s;
    if StartsAt(s, k, "https://") {
      WordAt(s, k, "https://", 5);
    }
    if StartsAt(s, k, "http://") {
      WordAt(s, k, "http://", 4);
    }
    hide Until, ClosingParen, IsSpace;
  }

  lemma {:induction false} NoTokens(s: string, k: nat)
    requires '`' !in s && '[' !in s && ':' !in s
    ensures NextToken(s, k).None?
    decreases |s| - k
  {
    if k < |s| {
      NoTokenAt(s, k);
      hide TokenAt;
      NoTokens(s, k + 1);
    }
  }

  /** Text without a markup character or a colon is shown as it is: escaped, with its line breaks. */
  lemma PlainTextStays(src: string)
    requires '*' !in src && '`' !in src && '[' !in src && ':' !in src
    ensures RenderInline(src) == Replace(EscapeHtml(src), '\n', "<br>")
  {
    var esc := EscapeHtml(src);
    EscapeIsOneMap(src);
    assert Seam('*') && Seam('`') && Seam('[') && Seam(':');
    EscapedKeepsOut(src, '*');
    EscapedKeepsOut(src, '`');
    EscapedKeepsOut(src, '[');
    EscapedKeepsOut(src, ':');
    NoTokens(esc, 0);
    assert esc[0..] == esc && forall i | 0 <= i < |esc| :: esc[i] in esc;
    hide EscapeHtml, NextToken, Emphasis, Replace, Seam, ShowText;
    SpacedStarsStayLiteral(esc);
    InlineStep(esc, 0);
  }

  // ---------------------------------------------------------------------------
  // Blocks
  // ---------------------------------------------------------------------------

  function TrimLeft(s: string): string {
    if s != [] && IsSpace(s[0]) then TrimLeft(s[1..]) else s
  }

  function Trim(s: string): string {
    if s != [] && IsSpace(s[|s| - 1]) then Trim(s[..|s| - 1]) else TrimLeft(s)
  }

  /** `split('\n')`. */
  function Lines(s: string): (r: seq<string>)
    ensures r != []
    decreases |s|
  {
    var end := Until(s, 0, c => c == '\n');
    if end == |s| then [s] else [s[..end]] + Lines(s[end + 1..])
  }

  /** `split(/\n{2,}/)`: the text before the first empty line, and the rest. */
  function Blocks(s: string, k: nat): seq<string>
    requires k <= |s|
    decreases |s|, |s| - k
  {
    if k + 1 >= |s| then [s]
    else if s[k] == '\n' && s[k + 1] == '\n' then
      var next := Until(s, k, c => c != '\n');
      [s[..k]] + Blocks(s[next..], 0)
    else Blocks(s, k + 1)
  }

  predicate IsLineEnd(c: char) {
    c == '\n' || c == '\r' || c == '\U{2028}' || c == '\U{2029}'
  }

  /** `/^(#{1,2})\s+(.+)$/` on a trimmed line: the level and the title. */
  function Heading(line: string): Option<(nat, string)> {
    var level := if StartsAt(line, 0, "##") then 2 else if StartsAt(line, 0, "#") then 1 else 0;
    if level == 0 || level >= |line| || !IsSpace(line[level]) then None
    else
      var title := TrimLeft(line[level..]);
      if title == [] || (exists c :: c in title && IsLineEnd(c)) then None else Some((level, title))
  }

  /** `/^\s*[-*]\s+\S/`: the text of a list item. */
  function Item(line: string): Option<string> {
    var bullet := TrimLeft(line);
    if bullet == [] || (bullet[0] != '-' && bullet[0] != '*') then None
    else if |bullet| == 1 || !IsSpace(bullet[1]) || TrimLeft(bullet[1..]) == [] then None
    else Some(TrimLeft(bullet[1..]))
  }

  function Items(lines: seq<string>): string
    requires forall line | line in lines :: Item(line).Some?
  {
    if lines == [] then ""
    else "<li>" + RenderInline(Item(lines[0]).value) + "</li>" + Items(lines[1..])
  }

  function RenderBlock(block: string): string {
    var lines := Lines(block);
    var heading := Heading(Trim(lines[0]));
    if heading.Some? && |lines| == 1 then
      if heading.value.0 == 1 then "<h3>" + RenderInline(heading.value.1) + "</h3>"
      else "<h4>" + RenderInline(heading.value.1) + "</h4>"
    else if forall line | line in lines :: Item(line).Some? then "<ul>" + Items(lines) + "</ul>"
    else "<p>" + RenderInline(block) + "</p>"
  }

  function RenderBlocks(blocks: seq<string>): string {
    if blocks == [] then ""
    else (if Trim(blocks[0]) == "" then "" else RenderBlock(blocks[0])) + RenderBlocks(blocks[1..])
  }

  function RenderProse(prose: string): string {
    RenderBlocks(Blocks(prose, 0))
  }

  predicate IsWord(c: char) {
    'a' <= c <= 'z' || 'A' <= c <= 'Z' || '0' <= c <= '9' || c == '_'
  }

  const FENCE_MARK := "```"

  /** Where the code starts if a fence opens at `k`. */
  function FenceAt(s: string, k: nat): (r: Option<nat>)
    ensures r.Some? ==> k + 3 < r.value <= |s|
  {
    if !StartsAt(s, k, FENCE_MARK) then None
    else
      var end := Until(s, k + 3, c => !IsWord(c));
      if end < |s| && s[end] == '\n' then Some(end + 1) else None
  }

  function NextFence(s: string, k: nat): (r: Option<(nat, nat)>)
    ensures r.Some? ==> k <= r.value.0 && r.value.0 + 3 < r.value.1 <= |s|
    decreases |s| - k
  {
    if k >= |s| then None
    else
      match FenceAt(s, k)
      case Some(code) => Some((k, code))
      case None => NextFence(s, k + 1)
  }

  /** The end of the code: the closing mark, or the end of the text. */
  function CodeEnd(s: string, k: nat): (r: nat)
    requires k <= |s|
    ensures k <= r <= |s| && (r < |s| ==> r + 3 <= |s|)
    decreases |s| - k
  {
    if k == |s| || StartsAt(s, k, FENCE_MARK) then k else CodeEnd(s, k + 1)
  }

  /** Prose, and the code of the fence that ends it, if one does. */
  datatype Part = Part(prose: string, code: Option<string>)

  /** `split(FENCE)`. */
  function Parts(s: string, last: nat): seq<Part>
    requires last <= |s|
    decreases |s| - last
  {
    var fence := NextFence(s, last);
    if fence.None? then [Part(s[last..], None)]
    else
      var (k, start) := fence.value;
      var end := CodeEnd(s, start);
      [Part(s[last..k], Some(s[start..end]))] + Parts(s, if end == |s| then end else end + 3)
  }

  function FencedCode(code: string): string {
    var text := if code != [] && code[|code| - 1] == '\n' then code[..|code| - 1] else code;
    "<pre>" + ("<code>" + EscapeHtml(text) + "</code>") + "</pre>"
  }

  function RenderPart(part: Part): string {
    (if part.prose == "" then "" else RenderProse(part.prose))
    + (if part.code.Some? then FencedCode(part.code.value) else "")
  }

  function RenderParts(parts: seq<Part>): string {
    if parts == [] then "" else RenderParts(parts[..|parts| - 1]) + RenderPart(parts[|parts| - 1])
  }

  lemma OnePartMore(parts: seq<Part>, i: nat)
    requires i < |parts|
    ensures RenderParts(parts[..i + 1]) == RenderParts(parts[..i]) + RenderPart(parts[i])
  {
    assert parts[..i + 1][..i] == parts[..i];
    hide RenderPart;
  }

  /** One turn of the loop over the parts. */
  method RenderOne(part: Part) returns (html: string)
    ensures html == RenderPart(part)
  {
    hide RenderProse, FencedCode;
    html := "";
    if part.prose != "" {
      html := RenderProse(part.prose);
    }
    if part.code.Some? {
      html := html + FencedCode(part.code.value);
    }
  }

  method RenderMarkdown(src: string) returns (html: string)
    ensures html == RenderParts(Parts(src, 0))
  {
    var parts := Parts(src, 0);
    html := "";
    var i := 0;
    assert RenderParts(parts[..0]) == "";
    hide *;
    while i < |parts|
      invariant 0 <= i <= |parts| && html == RenderParts(parts[..i])
    {
      OnePartMore(parts, i);
      var part := RenderOne(parts[i]);
      html := html + part;
      i := i + 1;
    }
    assert parts[..i] == parts;
  }

  // ---------------------------------------------------------------------------
  // Splitting at the fences
  // ---------------------------------------------------------------------------

  /** A fence opens at `k`: the mark, a word and a newline, behind which its code starts. */
  predicate Opens(s: string, k: nat, start: nat) {
    && k + 3 < start <= |s| && s[k..k + 3] == FENCE_MARK && s[start - 1] == '\n'
    && forall i | k + 3 <= i < start - 1 :: IsWord(s[i])
  }

  lemma FenceExactly(s: string, k: nat, start: nat)
    ensures FenceAt(s, k) == Some(start) <==> Opens(s, k, start)
  {
    if Opens(s, k, start) {
      assert StartsAt(s, k, FENCE_MARK);
      assert !IsWord(s[start - 1]);
    }
  }

  lemma {:induction false} NextFenceExactly(s: string, k: nat, open: nat, start: nat)
    ensures NextFence(s, k) == Some((open, start)) <==>
              k <= open && Opens(s, open, start) && forall j: nat, n: nat | k <= j < open :: !Opens(s, j, n)
    decreases |s| - k
  {
    OpensInside(s, open, start);
    forall n: nat ensures FenceAt(s, k) == Some(n) <==> Opens(s, k, n) {
      FenceExactly(s, k, n);
    }
    hide FenceAt, Opens;
    if k < |s| {
      NextFenceExactly(s, k + 1, open, start);
      assert FenceAt(s, k).Some? ==> Opens(s, k, FenceAt(s, k).value);
    }
  }

  lemma {:induction false} NoNextFence(s: string, k: nat)
    ensures NextFence(s, k).None? <==> forall j: nat, n: nat | k <= j :: !Opens(s, j, n)
  {
    if NextFence(s, k).Some? {
      NextFenceExactly(s, k, NextFence(s, k).value.0, NextFence(s, k).value.1);
    }
    hide Opens, NextFence;
    if j: nat, n: nat :| k <= j && Opens(s, j, n) {
      FirstOpening(s, k, j, n);
    }
  }

  lemma {:induction false} FirstOpening(s: string, k: nat, j: nat, n: nat)
    requires k <= j && Opens(s, j, n)
    ensures NextFence(s, k).Some?
    decreases j - k
  {
    FenceExactly(s, j, n);
    hide Opens, FenceAt;
    if FenceAt(s, k).None? {
      FirstOpening(s, k + 1, j, n);
    }
  }

  lemma {:induction false} CodeEndExactly(s: string, k: nat, end: nat)
    requires k <= end <= |s|
    ensures CodeEnd(s, k) == end <==>
              && (end == |s| || StartsAt(s, end, FENCE_MARK))
              && forall j | k <= j < end :: !StartsAt(s, j, FENCE_MARK)
    decreases end - k
  {
    hide StartsAt;
    if k < end {
      CodeEndExactly(s, k + 1, end);
    }
  }

  /** The tail of the text is split as it is in the text. */
  lemma FenceShift(s: string, d: nat, k: nat)
    requires d + k <= |s|
    ensures forall n: nat :: Opens(s[d..], k, n) <==> Opens(s, d + k, d + n)
  {
    assert d + k + 3 <= |s| ==> s[d..][k..k + 3] == s[d + k..d + k + 3];
  }

  lemma NextFenceShift(s: string, d: nat)
    requires d <= |s|
    ensures match NextFence(s, d)
            case None => NextFence(s[d..], 0) == None
            case Some(f) => d <= f.0 && NextFence(s[d..], 0) == Some((f.0 - d, f.1 - d))
  {
    hide NextFence, Opens;
    forall k: nat, n: nat | d + k <= |s| ensures Opens(s[d..], k, n) <==> Opens(s, d + k, d + n) {
      FenceShift(s, d, k);
    }
    match NextFence(s, d)
    case None =>
      NoNextFence(s, d);
      NoNextFence(s[d..], 0);
      forall j: nat, n: nat ensures !Opens(s[d..], j, n) {
        OpensInside(s[d..], j, n);
        assert !Opens(s, d + j, d + n);
      }
    case Some(f) =>
      NextFenceExactly(s, d, f.0, f.1);
      NextFenceExactly(s[d..], 0, f.0 - d, f.1 - d);
      assert Opens(s[d..], f.0 - d, f.1 - d);
      forall j: nat, n: nat | j < f.0 - d ensures !Opens(s[d..], j, n) {
        assert !Opens(s, d + j, d + n);
      }
  }

  lemma OpensInside(s: string, k: nat, n: nat)
    ensures Opens(s, k, n) ==> k < n <= |s|
  {
  }

  lemma TailStartsAt(s: string, d: nat, k: nat, word: string)
    requires d + k <= |s|
    ensures StartsAt(s[d..], k, word) <==> StartsAt(s, d + k, word)
  {
    assert d + k + |word| <= |s| ==> s[d..][k..k + |word|] == s[d + k..d + k + |word|];
  }

  lemma CodeEndShift(s: string, d: nat, k: nat)
    requires d + k <= |s|
    ensures CodeEnd(s, d + k) == d + CodeEnd(s[d..], k)
  {
    var end := CodeEnd(s[d..], k);
    CodeEndExactly(s[d..], k, end);
    CodeEndExactly(s, d + k, d + end);
    hide CodeEnd;
    hide StartsAt;
    forall j | k <= j <= end ensures StartsAt(s[d..], j, FENCE_MARK) <==> StartsAt(s, d + j, FENCE_MARK) {
      TailStartsAt(s, d, j, FENCE_MARK);
    }
    forall j | d + k <= j < d + end ensures !StartsAt(s, j, FENCE_MARK) {
      assert !StartsAt(s[d..], j - d, FENCE_MARK);
    }
  }

  lemma TailSlice(s: string, d: nat, i: nat, j: nat)
    requires d <= i <= j <= |s|
    ensures s[d..][i - d..j - d] == s[i..j]
    ensures s[d..][i - d..] == s[i..]
  {
  }

  lemma PartsStep(s: string, last: nat, k: nat, start: nat, end: nat)
    requires last <= k < start <= end <= |s|
    requires NextFence(s, last) == Some((k, start)) && CodeEnd(s, start) == end
    ensures end < |s| ==> end + 3 <= |s|
    ensures Parts(s, last) ==
            [Part(s[last..k], Some(s[start..end]))] + Parts(s, if end == |s| then end else end + 3)
  {
    hide NextFence, CodeEnd;
  }

  lemma PartsEnd(s: string, last: nat)
    requires last <= |s| && NextFence(s, last) == None
    ensures Parts(s, last) == [Part(s[last..], None)]
  {
    hide NextFence;
  }

  lemma {:induction false} PartsShift(s: string, d: nat)
    requires d <= |s|
    ensures Parts(s, d) == Parts(s[d..], 0)
    decreases |s| - d
  {
    hide *;
    NextFenceShift(s, d);
    var fence := NextFence(s, d);
    if fence.Some? {
      var (k, start) := fence.value;
      var end := CodeEnd(s, start);
      CodeEndShift(s, d, start - d);
      PartsStep(s, d, k, start, end);
      PartsStep(s[d..], 0, k - d, start - d, end - d);
      var next := if end == |s| then end else end + 3;
      PartsShift(s, next);
      PartsShift(s[d..], next - d);
      TailSlice(s, d, start, end);
      TailSlice(s, d, d, k);
      TailSlice(s, d, next, |s|);
    } else {
      PartsEnd(s, d);
      PartsEnd(s[d..], 0);
    }
  }

  /**
    The first part of a text and what follows it: prose in which no fence opens, the opening mark
    with its word and a newline, code in which no mark begins, and the closing mark, which only the
    end of the text can stand for.
   */
  ghost predicate FirstFence(s: string, part: Part, word: string, closing: string, rest: string) {
    && part.code.Some?
    && s == part.prose + (FENCE_MARK + word + "\n") + part.code.value + closing + rest
    && (forall c | c in word :: IsWord(c))
    && (forall j: nat, n: nat | j < |part.prose| :: !Opens(s, j, n))
    && (forall j | 0 <= j < |part.code.value| :: !StartsAt(part.code.value + closing, j, FENCE_MARK))
    && (closing == FENCE_MARK || (closing == "" && rest == ""))
  }

  /** The text consists of these parts, in this order. */
  ghost predicate Split(s: string, parts: seq<Part>)
    decreases |parts|
  {
    parts != [] &&
    if parts[0].code.None? then
      parts == [Part(s, None)] && forall j: nat, n: nat :: !Opens(s, j, n)
    else
      exists word, closing, rest :: FirstFence(s, parts[0], word, closing, rest) && Split(rest, parts[1..])
  }

  lemma TwoPieces(a: string, b: string)
    ensures (a + b)[..|a|] == a && (a + b)[|a|..] == b
  {
  }

  /** Where the opening of a fence lies in the text. */
  lemma OpeningPlaces(prose: string, word: string, tail: string)
    ensures var s, k, start := prose + (FENCE_MARK + word + "\n") + tail, |prose|, |prose| + 3 + |word| + 1;
            && |s| == start + |tail| && s[..k] == prose && s[k..k + 3] == FENCE_MARK
            && (forall i | k + 3 <= i < start - 1 :: s[i] in word) && s[start - 1] == '\n' && s[start..] == tail
  {
    var opening := FENCE_MARK + word + "\n";
    var s, k := prose + opening + tail, |prose|;
    TwoPieces(prose + opening, tail);
    assert s == prose + (opening + tail);
    TwoPieces(prose, opening + tail);
    assert forall i | 0 <= i < |opening| :: s[k + i] == opening[i];
    assert opening[..3] == FENCE_MARK;
    assert forall i | 0 <= i < |word| :: opening[3 + i] == word[i];
    forall i | k + 3 <= i < k + 3 + |word| ensures s[i] in word {
      assert s[i] == opening[i - k] == word[i - k - 3];
    }
  }

  lemma MarkInside(code: string, closing: string, rest: string, j: nat)
    requires closing == FENCE_MARK || (closing == "" && rest == "")
    requires j < |code|
    ensures StartsAt(code + closing + rest, j, FENCE_MARK) <==> StartsAt(code + closing, j, FENCE_MARK)
  {
    if closing == "" {
      assert code + closing + rest == code + closing;
    } else {
      assert (code + closing + rest)[j..j + 3] == (code + closing)[j..j + 3];
    }
  }

  lemma FirstFenceOpens(s: string, part: Part, word: string, closing: string, rest: string)
    requires FirstFence(s, part, word, closing, rest)
    ensures var k := |part.prose|;
            var start := k + 3 + |word| + 1;
            && s[..k] == part.prose && start <= |s| && s[start..] == part.code.value + closing + rest
            && NextFence(s, 0) == Some((k, start))
  {
    hide *;
    FirstFenceText(s, part, word, closing, rest);
    OpeningFound(s, part.prose, word, part.code.value + closing + rest);
  }

  lemma OpeningFound(s: string, prose: string, word: string, tail: string)
    requires s == prose + (FENCE_MARK + word + "\n") + tail && forall c | c in word :: IsWord(c)
    requires forall j: nat, n: nat | j < |prose| :: !Opens(s, j, n)
    ensures var k, start := |prose|, |prose| + 3 + |word| + 1;
            s[..k] == prose && start <= |s| && s[start..] == tail && NextFence(s, 0) == Some((k, start))
  {
    hide *;
    var k, start := |prose|, |prose| + 3 + |word| + 1;
    OpeningPlaces(prose, word, tail);
    PiecesOpen(s, k, start, word);
    NextFenceExactly(s, 0, k, start);
  }

  lemma FirstFenceText(s: string, part: Part, word: string, closing: string, rest: string)
    requires FirstFence(s, part, word, closing, rest)
    ensures part.code.Some? && s == part.prose + (FENCE_MARK + word + "\n") + (part.code.value + closing + rest)
    ensures (forall c | c in word :: IsWord(c)) && forall j: nat, n: nat | j < |part.prose| :: !Opens(s, j, n)
  {
    hide StartsAt, Opens, IsWord;
    assert part.prose + (FENCE_MARK + word + "\n") + part.code.value + closing + rest ==
           part.prose + (FENCE_MARK + word + "\n") + (part.code.value + closing + rest);
  }

  lemma PiecesOpen(s: string, k: nat, start: nat, word: string)
    requires k + 3 < start <= |s| && s[k..k + 3] == FENCE_MARK && s[start - 1] == '\n'
    requires (forall i | k + 3 <= i < start - 1 :: s[i] in word) && forall c | c in word :: IsWord(c)
    ensures Opens(s, k, start)
  {
  }

  lemma FirstFenceCloses(code: string, closing: string, rest: string)
    requires forall j | 0 <= j < |code| :: !StartsAt(code + closing, j, FENCE_MARK)
    requires closing == FENCE_MARK || (closing == "" && rest == "")
    ensures CodeEnd(code + closing + rest, 0) == |code|
  {
    var s := code + closing + rest;
    CodeEndExactly(s, 0, |code|);
    forall j | 0 <= j < |code| ensures !StartsAt(s, j, FENCE_MARK) {
      MarkInside(code, closing, rest, j);
    }
    hide CodeEnd;
    if closing == FENCE_MARK {
      assert s == code + (closing + rest) && (closing + rest)[..3] == FENCE_MARK;
      TwoPieces(code, closing + rest);
      assert s[|code|..|code| + 3] == s[|code|..][..3];
    }
  }

  lemma TailPlaces(s: string, start: nat, code: string, closing: string, rest: string)
    requires start <= |s| && s[start..] == code + closing + rest
    ensures var end := start + |code|;
            && |s| == end + |closing| + |rest| && s[start..end] == code && s[end + |closing|..] == rest
  {
    var end := start + |code|;
    assert s[start..] == code + (closing + rest);
    TwoPieces(code, closing + rest);
    TwoPieces(closing, rest);
    TailSlice(s, start, start, end);
    TailSlice(s, start, end, |s|);
    TailSlice(s, end, end + |closing|, |s|);
  }

  lemma PartsAt(s: string, part: Part, rest: string, start: nat, end: nat, next: nat)
    requires |part.prose| < start <= end <= next <= |s| && next == (if end == |s| then end else end + 3)
    requires part == Part(s[..|part.prose|], Some(s[start..end])) && s[next..] == rest
    requires NextFence(s, 0) == Some((|part.prose|, start)) && CodeEnd(s, start) == end
    ensures Parts(s, 0) == [part] + Parts(rest, 0)
  {
    hide *;
    PartsStep(s, 0, |part.prose|, start, end);
    PartsShift(s, next);
    assert s[0..|part.prose|] == s[..|part.prose|];
  }

  lemma PartsFromPlaces(s: string, prose: string, code: string, start: nat, closing: string, rest: string)
    requires |prose| < start <= |s| && s[..|prose|] == prose && s[start..] == code + closing + rest
    requires NextFence(s, 0) == Some((|prose|, start)) && CodeEnd(s[start..], 0) == |code|
    requires |closing| == if rest == "" && closing == "" then 0 else 3
    ensures Parts(s, 0) == [Part(prose, Some(code))] + Parts(rest, 0)
  {
    hide *;
    TailPlaces(s, start, code, closing, rest);
    CodeEndShift(s, start, 0);
    var end := start + |code|;
    PartsAt(s, Part(prose, Some(code)), rest, start, end, end + |closing|);
  }

  /** A text split by its first fence is split by `Parts` into that part and the parts of the rest. */
  lemma FirstFenceParts(s: string, part: Part, word: string, closing: string, rest: string)
    requires FirstFence(s, part, word, closing, rest)
    ensures Parts(s, 0) == [part] + Parts(rest, 0) && |rest| < |s|
  {
    FirstFenceOpens(s, part, word, closing, rest);
    FirstFenceCloses(part.code.value, closing, rest);
    assert part == Part(part.prose, Some(part.code.value));
    hide *;
    PartsFromPlaces(s, part.prose, part.code.value, |part.prose| + 3 + |word| + 1, closing, rest);
  }

  lemma JoinedAgain(s: string, k: nat, start: nat, end: nat, next: nat)
    requires k + 3 < start <= end <= next <= |s| && s[k..k + 3] == FENCE_MARK && s[start - 1] == '\n'
    ensures s == s[..k] + (FENCE_MARK + s[k + 3..start - 1] + "\n") + s[start..end] + s[end..next] + s[next..]
  {
    assert s[..k] + (s[k..k + 3] + s[k + 3..start - 1] + s[start - 1..start]) == s[..start];
    assert s[..start] + s[start..end] == s[..end] && s[..end] + s[end..next] == s[..next];
  }

  lemma MarksAfter(s: string, start: nat, end: nat, next: nat)
    requires start <= end <= next <= |s| && forall j | start <= j < end :: !StartsAt(s, j, FENCE_MARK)
    ensures forall j | 0 <= j < end - start :: !StartsAt(s[start..end] + s[end..next], j, FENCE_MARK)
  {
    var t := s[start..end] + s[end..next];
    assert t == s[start..next];
    forall j | 0 <= j < end - start ensures !StartsAt(t, j, FENCE_MARK) {
      assert !StartsAt(s, start + j, FENCE_MARK);
      if j + 3 <= |t| {
        SliceOfSlice(s, start, next, j, j + 3);
      }
    }
  }

  lemma SliceOfSlice(s: string, i: nat, j: nat, m: nat, n: nat)
    requires i <= j <= |s| && m <= n <= j - i
    ensures s[i..j][m..n] == s[i + m..i + n]
  {
    var a, b := s[i..j][m..n], s[i + m..i + n];
    assert forall k | 0 <= k < n - m :: a[k] == s[i + m + k] == b[k];
    assert a == b;
  }

  lemma WordInside(s: string, k: nat, start: nat)
    requires Opens(s, k, start)
    ensures forall c | c in s[k + 3..start - 1] :: IsWord(c)
  {
  }

  lemma FirstOfText(s: string, k: nat, start: nat, end: nat, closing: string) returns (word: string)
    requires NextFence(s, 0) == Some((k, start)) && start <= end && CodeEnd(s, start) == end
    requires closing == if end == |s| then "" else FENCE_MARK
    ensures end + |closing| <= |s|
    ensures FirstFence(s, Part(s[..k], Some(s[start..end])), word, closing, s[end + |closing|..])
  {
    word := s[k + 3..start - 1];
    NextFenceExactly(s, 0, k, start);
    CodeEndExactly(s, start, end);
    WordInside(s, k, start);
    var next := end + |closing|;
    assert s[end..next] == closing && s[|s|..] == "";
    JoinedAgain(s, k, start, end, next);
    hide NextFence, CodeEnd, Opens, StartsAt;
    MarksAfter(s, start, end, next);
  }

  lemma {:induction false} PartsSplit(s: string)
    ensures Split(s, Parts(s, 0))
    decreases |s|
  {
    var fence := NextFence(s, 0);
    if fence.None? {
      NoNextFence(s, 0);
      PartsEnd(s, 0);
      hide NextFence, Parts, Opens;
    } else {
      var (k, start) := fence.value;
      var end := CodeEnd(s, start);
      var closing := if end == |s| then "" else FENCE_MARK;
      var word := FirstOfText(s, k, start, end, closing);
      var part, rest := Part(s[..k], Some(s[start..end])), s[end + |closing|..];
      FirstFenceParts(s, part, word, closing, rest);
      hide FirstFence, Parts, NextFence, CodeEnd;
      PartsSplit(rest);
      assert ([part] + Parts(rest, 0))[1..] == Parts(rest, 0);
      assert part.code.Some?;
    }
  }

  lemma {:induction false} SplitIsParts(s: string, parts: seq<Part>)
    requires Split(s, parts)
    ensures Parts(s, 0) == parts
    decreases |parts|
  {
    if parts[0].code.None? {
      NoNextFence(s, 0);
      PartsEnd(s, 0);
    } else {
      var word, closing, rest :| FirstFence(s, parts[0], word, closing, rest) && Split(rest, parts[1..]);
      hide *;
      FirstFenceParts(s, parts[0], word, closing, rest);
      SplitIsParts(rest, parts[1..]);
    }
  }

  /** The parts of a text are the one way to split it: joined they give it back, and each fence is the first. */
  lemma PartsExactly(s: string, parts: seq<Part>)
    ensures Parts(s, 0) == parts <==> Split(s, parts)
  {
    PartsSplit(s);
    hide *;
    if Split(s, parts) {
      SplitIsParts(s, parts);
    }
  }

  lemma {:induction false} RenderFirst(part: Part, parts: seq<Part>)
    ensures RenderParts([part] + parts) == RenderPart(part) + RenderParts(parts)
  {
    hide RenderPart;
    if parts == [] {
      assert RenderParts([part][..0]) == "" && [part] + parts == [part];
    } else {
      var n := |parts| - 1;
      RenderFirst(part, parts[..n]);
      assert ([part] + parts)[..n + 1] == [part] + parts[..n] && ([part] + parts)[n + 1] == parts[n];
    }
  }

  /** Text without a fence is rendered as prose. */
  lemma ProseRenders(s: string)
    requires forall j: nat, n: nat :: !Opens(s, j, n)
    ensures RenderParts(Parts(s, 0)) == RenderProse(s)
  {
    NoNextFence(s, 0);
    PartsEnd(s, 0);
    var part := Part(s, None);
    assert s[0..] == s && Parts(s, 0) == [part] && [part][..0] == [] && RenderParts([]) == "";
    hide Parts, NextFence, RenderBlock, Opens;
    assert RenderProse("") == "";
    hide RenderProse;
    assert RenderPart(part) == RenderProse(s);
  }

  /** A fence is rendered between the prose before it and everything behind it. */
  lemma FenceRenders(s: string, part: Part, word: string, closing: string, rest: string)
    requires FirstFence(s, part, word, closing, rest)
    ensures RenderParts(Parts(s, 0)) ==
            RenderProse(part.prose) + FencedCode(part.code.value) + RenderParts(Parts(rest, 0))
  {
    FirstFenceParts(s, part, word, closing, rest);
    RenderFirst(part, Parts(rest, 0));
    hide Parts, RenderBlock, Opens, RenderParts, FencedCode;
    assert RenderProse("") == "";
    hide RenderProse;
  }

  predicate NoMark(s: string) {
    forall j | 0 <= j < |s| :: !StartsAt(s, j, FENCE_MARK)
  }

  lemma NoMarkNoFence(s: string)
    requires NoMark(s)
    ensures forall j: nat, n: nat :: !Opens(s, j, n)
  {
    forall j: nat, n: nat ensures !Opens(s, j, n) {
      if Opens(s, j, n) {
        assert StartsAt(s, j, FENCE_MARK);
      }
    }
  }

  /** Two ticks more than the code itself: the closing mark does not begin inside the code. */
  lemma MarkAtEnd(code: string)
    requires NoMark(code + "``")
    ensures forall j | 0 <= j < |code| :: !StartsAt(code + FENCE_MARK, j, FENCE_MARK)
  {
    forall j | 0 <= j < |code| ensures !StartsAt(code + FENCE_MARK, j, FENCE_MARK) {
      assert !StartsAt(code + "``", j, FENCE_MARK);
      assert (code + FENCE_MARK)[j..j + 3] == (code + "``")[j..j + 3];
    }
  }

  /** Code between two marks is rendered as code, and the prose behind it as prose. */
  lemma FenceAndProse(code: string, prose: string)
    requires NoMark(code + "``") && NoMark(prose)
    ensures RenderParts(Parts(FENCE_MARK + "\n" + code + FENCE_MARK + prose, 0)) ==
            FencedCode(code) + RenderProse(prose)
  {
    MarkAtEnd(code);
    NoMarkNoFence(prose);
    FenceFirst(code, prose);
    var s, part := FENCE_MARK + "\n" + code + FENCE_MARK + prose, Part("", Some(code));
    EmptyProse();
    hide *;
    assert part.prose == "" && part.code.value == code;
    FenceRenders(s, part, "", FENCE_MARK, prose);
    ProseRenders(prose);
    var html := FencedCode(code);
    assert "" + html == html;
  }

  lemma FenceFirst(code: string, prose: string)
    requires forall j | 0 <= j < |code| :: !StartsAt(code + FENCE_MARK, j, FENCE_MARK)
    ensures FirstFence(FENCE_MARK + "\n" + code + FENCE_MARK + prose, Part("", Some(code)), "", FENCE_MARK, prose)
  {
    hide Opens, StartsAt;
    assert "" + (FENCE_MARK + "" + "\n") == FENCE_MARK + "\n";
  }

  lemma EmptyProse()
    ensures RenderProse("") == ""
  {
  }

  lemma EnclosedIsSafe(open: TagName, inner: string, close: TagName)
    requires Safe(inner)
    ensures Safe(ShowTag(open) + inner + ShowTag(close))
  {
    TagIsSafe(open);
    TagIsSafe(close);
    hide *;
    SafeConcat(ShowTag(open), inner);
    SafeConcat(ShowTag(open) + inner, ShowTag(close));
  }

  lemma EmptyIsSafe()
    ensures Safe("")
  {
    assert Fine([]) && Show([]) == "";
  }

  lemma {:induction false} ItemsAreSafe(lines: seq<string>)
    requires forall line | line in lines :: Item(line).Some?
    ensures Safe(Items(lines))
  {
    EmptyIsSafe();
    hide Safe, RenderInline, Item;
    if lines != [] {
      InlineIsSafe(Item(lines[0]).value);
      EnclosedIsSafe(ItemOpen, RenderInline(Item(lines[0]).value), ItemClose);
      ItemsAreSafe(lines[1..]);
      SafeConcat("<li>" + RenderInline(Item(lines[0]).value) + "</li>", Items(lines[1..]));
    }
  }

  lemma BlockIsSafe(block: string)
    ensures Safe(RenderBlock(block))
  {
    hide Safe, RenderInline, Item, Heading, Items, Lines, Trim;
    var lines := Lines(block);
    var heading := Heading(Trim(lines[0]));
    if heading.Some? {
      InlineIsSafe(heading.value.1);
      EnclosedIsSafe(TitleOpen, RenderInline(heading.value.1), TitleClose);
      EnclosedIsSafe(SubtitleOpen, RenderInline(heading.value.1), SubtitleClose);
    }
    if forall line | line in lines :: Item(line).Some? {
      ItemsAreSafe(lines);
      EnclosedIsSafe(ListOpen, Items(lines), ListClose);
    }
    InlineIsSafe(block);
    EnclosedIsSafe(ParagraphOpen, RenderInline(block), ParagraphClose);
  }

  lemma {:induction false} BlocksAreSafe(blocks: seq<string>)
    ensures Safe(RenderBlocks(blocks))
  {
    EmptyIsSafe();
    hide Safe, RenderBlock, Trim;
    if blocks != [] {
      BlockIsSafe(blocks[0]);
      BlocksAreSafe(blocks[1..]);
      SafeConcat(if Trim(blocks[0]) == "" then "" else RenderBlock(blocks[0]), RenderBlocks(blocks[1..]));
    }
  }

  lemma FencedCodeIsSafe(code: string)
    ensures Safe(FencedCode(code))
  {
    var inner := if code != [] && code[|code| - 1] == '\n' then code[..|code| - 1] else code;
    var element := ShowTag(CodeOpen) + EscapeHtml(inner) + ShowTag(CodeClose);
    assert FencedCode(code) == ShowTag(FenceOpen) + element + ShowTag(FenceClose);
    hide *;
    EscapeRoundTrip(inner);
    EscapedIsSafe(EscapeHtml(inner));
    EnclosedIsSafe(CodeOpen, EscapeHtml(inner), CodeClose);
    EnclosedIsSafe(FenceOpen, element, FenceClose);
  }

  lemma PartIsSafe(part: Part)
    ensures Safe(RenderPart(part))
  {
    EmptyIsSafe();
    BlocksAreSafe(Blocks(part.prose, 0));
    if part.code.Some? {
      FencedCodeIsSafe(part.code.value);
    }
    hide Safe, RenderBlocks, Blocks, FencedCode;
    SafeConcat(if part.prose == "" then "" else RenderProse(part.prose),
               if part.code.Some? then FencedCode(part.code.value) else "");
  }

  /** Block output is as safe as inline output, for every text. */
  lemma {:induction false} MarkdownIsSafe(parts: seq<Part>)
    ensures Safe(RenderParts(parts))
  {
    EmptyIsSafe();
    hide Safe, RenderPart;
    if parts != [] {
      MarkdownIsSafe(parts[..|parts| - 1]);
      PartIsSafe(parts[|parts| - 1]);
      SafeConcat(RenderParts(parts[..|parts| - 1]), RenderPart(parts[|parts| - 1]));
    }
  }

  /** A one-line title: it hugs the line's ends and has no line break of any kind. */
  predicate Title(t: string) {
    t != "" && !IsSpace(t[0]) && !IsSpace(t[|t| - 1]) && forall c | c in t :: !IsLineEnd(c)
  }

  lemma TrimOneSpace(t: string)
    requires t != "" && !IsSpace(t[0])
    ensures TrimLeft(t) == t && TrimLeft(" " + t) == t
  {
    var spaced := " " + t;
    assert spaced[0] == ' ' && spaced[1..] == t && IsSpace(' ');
    assert TrimLeft(spaced) == TrimLeft(spaced[1..]);
  }

  lemma HeadingOf(marks: string, t: string)
    requires Title(t) && (marks == "#" || marks == "##")
    ensures var line := marks + (" " + t);
            Lines(line) == [line] && Trim(line) == line && Heading(line) == Some((|marks|, t))
  {
    var n := |marks|;
    var line := marks + (" " + t);
    assert line[0] == '#' && line[n] == ' ' && line[|line| - 1] == t[|t| - 1] && line[n..] == " " + t;
    forall i | 0 <= i < |line| ensures line[i] != '\n' {
      if i > n {
        assert line[i] == t[i - n - 1] && line[i] in t;
      }
    }
    UntilStops(line, 0, c => c == '\n', |line|);
    TrimOneSpace(t);
    if n == 1 {
      assert line[0..1] == "#";
      if StartsAt(line, 0, "##") {
        WordAt(line, 0, "##", 1);
      }
    } else {
      assert line[0..2] == "##";
    }
  }

  /** One mark makes a title, two make a subtitle. */
  lemma HeadingsRender(t: string)
    requires Title(t)
    ensures RenderBlock("#" + (" " + t)) == "<h3>" + RenderInline(t) + "</h3>"
    ensures RenderBlock("##" + (" " + t)) == "<h4>" + RenderInline(t) + "</h4>"
  {
    HeadingOf("#", t);
    HeadingOf("##", t);
    hide Lines, Trim, Heading, RenderInline, Item, Items, Title;
  }

  // ---------------------------------------------------------------------------
  // Blocks, paragraphs and lists
  // ---------------------------------------------------------------------------

  predicate Newlines(s: string) {
    forall i | 0 <= i < |s| :: s[i] == '\n'
  }

  lemma BlocksSkip(s: string, k: nat)
    requires k <= |s|
    ensures k + 1 < |s| && !(s[k] == '\n' && s[k + 1] == '\n') ==> Blocks(s, k) == Blocks(s, k + 1)
    ensures k + 1 >= |s| ==> Blocks(s, k) == [s]
  {
  }

  /** The text up to an empty line, and what follows it. */
  lemma GapAt(a: string, gap: string, b: string)
    requires |gap| >= 2 && Newlines(gap) && (b == "" || b[0] != '\n')
    ensures Blocks(a + (gap + b), |a|) == [a] + Blocks(b, 0)
  {
    var s, next := a + (gap + b), |a| + |gap|;
    assert forall i | |a| <= i < next :: s[i] == gap[i - |a|];
    assert s[..|a|] == a && s[next..] == b;
    hide Blocks;
    BlocksBreak(s, |a|, next);
  }

  lemma BreakInside(a: string, tail: string, k: nat) returns (next: nat)
    requires k + 1 < |a| && a[k] == '\n' && a[k + 1] == '\n' && a[|a| - 1] != '\n'
    ensures k < next < |a|
    ensures Blocks(a, k) == [a[..k]] + Blocks(a[next..], 0)
    ensures Blocks(a + tail, k) == [a[..k]] + Blocks(a[next..] + tail, 0)
  {
    hide Blocks;
    next := Until(a, k, c => c != '\n');
    BlocksBreak(a, k, next);
    assert forall i | k <= i <= next :: (a + tail)[i] == a[i];
    BlocksBreak(a + tail, k, next);
    assert (a + tail)[next..] == a[next..] + tail && (a + tail)[..k] == a[..k];
  }

  lemma {:induction false} BlocksJoin(a: string, gap: string, b: string, k: nat)
    requires k <= |a| && |gap| >= 2 && Newlines(gap)
    requires (a == "" || a[|a| - 1] != '\n') && (b == "" || b[0] != '\n')
    ensures Blocks(a + (gap + b), k) == Blocks(a, k) + Blocks(b, 0)
    decreases |a|, |a| - k
  {
    hide Blocks, Newlines;
    BlocksSkip(a, k);
    if k == |a| {
      GapAt(a, gap, b);
    } else if k + 1 < |a| && a[k] == '\n' && a[k + 1] == '\n' {
      var next := BreakInside(a, gap + b, k);
      assert a[next..][|a[next..]| - 1] == a[|a| - 1];
      BlocksJoin(a[next..], gap, b, 0);
    } else {
      assert (a + (gap + b))[k] == a[k] && (k + 1 < |a| ==> (a + (gap + b))[k + 1] == a[k + 1]);
      BlocksSkip(a + (gap + b), k);
      if k + 1 == |a| {
        BlocksSkip(a, k + 1);
      }
      BlocksJoin(a, gap, b, k + 1);
    }
  }

  lemma BlocksBreak(s: string, k: nat, next: nat)
    requires k + 1 < |s| && s[k] == '\n' && s[k + 1] == '\n' && k < next <= |s|
    requires (forall i | k <= i < next :: s[i] == '\n') && (next < |s| ==> s[next] != '\n')
    ensures Blocks(s, k) == [s[..k]] + Blocks(s[next..], 0)
  {
    var end := Until(s, k, c => c != '\n');
    UntilStops(s, k, c => c != '\n', next);
  }

  lemma {:induction false} BlocksConcat(a: seq<string>, b: seq<string>)
    ensures RenderBlocks(a + b) == RenderBlocks(a) + RenderBlocks(b)
  {
    hide RenderBlock, Trim;
    if a == [] {
      assert a + b == b;
    } else {
      assert (a + b)[0] == a[0] && (a + b)[1..] == a[1..] + b;
      BlocksConcat(a[1..], b);
    }
  }

  /** Prose on the two sides of empty lines is rendered on its own. */
  lemma ProseConcat(a: string, gap: string, b: string)
    requires |gap| >= 2 && Newlines(gap)
    requires (a == "" || a[|a| - 1] != '\n') && (b == "" || b[0] != '\n')
    ensures RenderProse(a + (gap + b)) == RenderProse(a) + RenderProse(b)
  {
    BlocksJoin(a, gap, b, 0);
    BlocksConcat(Blocks(a, 0), Blocks(b, 0));
    hide Blocks, RenderBlocks, Newlines;
  }

  predicate NoEmptyLine(s: string) {
    forall i | 0 <= i < |s| - 1 :: !(s[i] == '\n' && s[i + 1] == '\n')
  }

  lemma {:induction false} OneBlock(s: string, k: nat)
    requires NoEmptyLine(s) && k <= |s|
    ensures Blocks(s, k) == [s]
    decreases |s| - k
  {
    if k + 1 < |s| {
      OneBlock(s, k + 1);
    }
  }

  lemma {:induction false} TrimFirst(s: string)
    requires s != "" && !IsSpace(s[0])
    ensures Trim(s) != "" && Trim(s)[0] == s[0]
  {
    if IsSpace(s[|s| - 1]) {
      TrimFirst(s[..|s| - 1]);
    }
  }

  lemma FirstLine(s: string)
    ensures var end := Until(s, 0, c => c == '\n');
            Lines(s) == if end == |s| then [s] else [s[..end]] + Lines(s[end + 1..])
  {
    hide Until;
  }

  lemma NoHeading(line: string)
    requires line != "" && !IsSpace(line[0]) && line[0] != '#'
    ensures Heading(Trim(line)).None?
  {
    TrimFirst(line);
    var first := Trim(line);
    assert "##"[0] == "#"[0] == '#' && first[0..1][0] != '#';
    assert |first| >= 2 ==> first[0..2][0] != '#';
  }

  /** Prose without an empty line that begins with neither a space nor a mark is one paragraph. */
  lemma ParagraphRenders(s: string)
    requires NoEmptyLine(s) && s != "" && !IsSpace(s[0]) && s[0] !in "#-*"
    ensures RenderProse(s) == "<p>" + RenderInline(s) + "</p>"
  {
    OneBlock(s, 0);
    assert RenderProse(s) == if Trim(s) == "" then "" else RenderBlock(s) by {
      assert RenderBlocks([s][1..]) == "";
      hide RenderBlock, Trim, Blocks;
    }
    TrimFirst(s);
    FirstLine(s);
    var first := Lines(s)[0];
    assert IsSpace('\n');
    assert first != "" && first[0] == s[0];
    NoHeading(first);
    assert TrimLeft(first) == first && Item(first).None?;
    hide Heading, Trim, RenderInline, Item, Lines, RenderProse, NoEmptyLine, TrimLeft;
    assert first in Lines(s);
  }

  predicate ItemText(t: string) {
    t != "" && !IsSpace(t[0]) && '\n' !in t
  }

  /** The source of a list, one line for each item. */
  function Listed(items: seq<string>, mark: char): string
    requires items != []
  {
    [mark] + (" " + items[0]) + if |items| == 1 then "" else "\n" + Listed(items[1..], mark)
  }

  function ListHtml(items: seq<string>): string {
    if items == [] then "" else "<li>" + RenderInline(items[0]) + "</li>" + ListHtml(items[1..])
  }

  lemma ItemOf(mark: char, t: string)
    requires (mark == '-' || mark == '*') && ItemText(t)
    ensures Item([mark] + (" " + t)) == Some(t)
  {
    var line := [mark] + (" " + t);
    assert line[0] == mark && line[1] == ' ' && line[1..] == " " + t && (" " + t)[1..] == t;
    TrimOneSpace(t);
    assert TrimLeft(line) == line;
  }

  lemma LineMore(line: string, rest: string)
    requires '\n' !in line
    ensures Lines(line) == [line]
    ensures Lines(line + ("\n" + rest)) == [line] + Lines(rest)
  {
    var s := line + ("\n" + rest);
    FirstLine(line);
    FirstLine(s);
    hide Lines, Until;
    UntilStops(line, 0, c => c == '\n', |line|);
    UntilStops(s, 0, c => c == '\n', |line|);
    assert s[..|line|] == line && s[|line|..] == "\n" + rest && s[|line| + 1..] == rest;
  }

  lemma {:induction false} LinesListed(items: seq<string>, mark: char)
    requires items != [] && (mark == '-' || mark == '*') && forall t | t in items :: ItemText(t)
    ensures |Lines(Listed(items, mark))| == |items|
    ensures forall i | 0 <= i < |items| :: Lines(Listed(items, mark))[i] == [mark] + (" " + items[i])
  {
    hide Lines;
    var line := [mark] + (" " + items[0]);
    assert ItemText(items[0]);
    if |items| == 1 {
      LineMore(line, "");
      assert Listed(items, mark) == line;
    } else {
      LineMore(line, Listed(items[1..], mark));
      LinesListed(items[1..], mark);
      assert forall i | 0 < i < |items| :: items[i] == items[1..][i - 1];
    }
  }

  lemma {:induction false} ItemsListed(lines: seq<string>, items: seq<string>)
    requires |lines| == |items| && forall i | 0 <= i < |items| :: Item(lines[i]) == Some(items[i])
    ensures (forall line | line in lines :: Item(line).Some?) && Items(lines) == ListHtml(items)
  {
    hide Item, RenderInline;
    if items != [] {
      ItemsListed(lines[1..], items[1..]);
    }
  }

  /** A list renders every item, in order. */
  lemma ListRenders(items: seq<string>, mark: char)
    requires items != [] && (mark == '-' || mark == '*') && forall t | t in items :: ItemText(t)
    ensures RenderBlock(Listed(items, mark)) == "<ul>" + ListHtml(items) + "</ul>"
  {
    var lines := Lines(Listed(items, mark));
    LinesListed(items, mark);
    NoHeading(lines[0]);
    forall i | 0 <= i < |items| ensures Item(lines[i]) == Some(items[i]) {
      ItemOf(mark, items[i]);
    }
    hide *;
    ItemsListed(lines, items);
    ListBlock(Listed(items, mark), items);
  }

  lemma ListBlock(block: string, items: seq<string>)
    requires Heading(Trim(Lines(block)[0])).None?
    requires (forall line | line in Lines(block) :: Item(line).Some?) && Items(Lines(block)) == ListHtml(items)
    ensures RenderBlock(block) == "<ul>" + ListHtml(items) + "</ul>"
  {
    hide Lines, Heading, Item, Items, Trim, ListHtml;
  }

  /** A heading needs a block of its own: with another line behind it, it is a paragraph. */
  lemma HeadingWithText(line: string, more: string)
    requires '\n' !in line && line != "" && line[0] == '#'
    ensures RenderBlock(line + ("\n" + more)) == "<p>" + RenderInline(line + ("\n" + more)) + "</p>"
  {
    var block := line + ("\n" + more);
    LineMore(line, more);
    assert Lines(block)[0] == line && |Lines(block)| > 1;
    assert TrimLeft(line) == line && Item(line).None?;
    hide Lines, Heading, Item, RenderInline, TrimLeft, Trim;
    assert line in Lines(block);
  }
}

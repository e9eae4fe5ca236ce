/**
  What the inline markup means (src/components/Markdown.tsx:35-53): a code span, a link and a bare
  address in a text are rendered as such, between what comes before and what comes behind.
 */
module MarkdownTokens {
  import opened Wrappers
  import opened Markdown

  // ---------------------------------------------------------------------------
  // The pattern
  // ---------------------------------------------------------------------------

  /** What `TOKEN` matches at `k`, with nothing left out. */
  predicate Spells(s: string, k: nat, t: Token) {
    match t
    case CodeSpan(end) =>
      && k + 2 < end <= |s| && s[k] == '`' && s[end - 1] == '`'
      && forall i | k < i < end - 1 :: s[i] != '`' && s[i] != '\n'
    case LinkSpan(mid, end) =>
      && k + 1 < mid && mid + 3 < end <= |s| && s[k] == '[' && s[mid] == ']' && s[mid + 1] == '(' && s[end - 1] == ')'
      && (forall i | k < i < mid :: s[i] != '[' && s[i] != ']' && s[i] != '\n')
      && !IsSpace(s[mid + 2]) && (forall i | mid + 3 <= i < end - 1 :: s[i] != ')' && !IsSpace(s[i]))
    case UrlSpan(end) =>
      && SchemeAt(s, k) > 0 && k + SchemeAt(s, k) < end <= |s|
      && (forall i | k + SchemeAt(s, k) <= i < end :: !IsSpace(s[i])) && (end < |s| ==> IsSpace(s[end]))
  }

  lemma {:induction false} ClosingParenIs(s: string, k: nat, p: nat)
    requires k <= p < |s| && s[p] == ')' && forall i | k <= i < p :: s[i] != ')' && !IsSpace(s[i])
    ensures ClosingParen(s, k) == Some(p)
    decreases p - k
  {
    if k < p {
      ClosingParenIs(s, k + 1, p);
    }
  }

  lemma CodeExactly(s: string, k: nat, end: nat)
    requires k < |s| && Spells(s, k, CodeSpan(end))
    ensures TokenAt(s, k) == Some(CodeSpan(end))
  {
    UntilStops(s, k + 1, c => c == '`' || c == '\n', end - 1);
  }

  lemma LinkExactly(s: string, k: nat, mid: nat, end: nat)
    requires k < |s| && Spells(s, k, LinkSpan(mid, end))
    ensures TokenAt(s, k) == Some(LinkSpan(mid, end))
  {
    UntilStops(s, k + 1, c => c == ']' || c == '[' || c == '\n', mid);
    ClosingParenIs(s, mid + 3, end - 1);
  }

  lemma UrlExactly(s: string, k: nat, end: nat)
    requires k < |s| && Spells(s, k, UrlSpan(end))
    ensures TokenAt(s, k) == Some(UrlSpan(end))
  {
    UntilStops(s, k + SchemeAt(s, k), c => IsSpace(c), end);
  }

  lemma {:induction false} ClosingParenFirst(s: string, k: nat)
    ensures ClosingParen(s, k).Some? ==> forall i | k <= i < ClosingParen(s, k).value :: s[i] != ')'
    decreases |s| - k
  {
    if k < |s| {
      ClosingParenFirst(s, k + 1);
    }
  }

  lemma TokenSpelled(s: string, k: nat)
    requires k < |s| && TokenAt(s, k).Some?
    ensures Spells(s, k, TokenAt(s, k).value)
  {
    var t := TokenAt(s, k).value;
    if t.LinkSpan? {
      ClosingParenFirst(s, t.mid + 3);
    }
  }

  /** A token is found exactly where the pattern spells it. */
  lemma TokenExactly(s: string, k: nat, t: Token)
    requires k < |s|
    ensures TokenAt(s, k) == Some(t) <==> Spells(s, k, t)
  {
    if Spells(s, k, t) {
      match t
      case CodeSpan(end) => CodeExactly(s, k, end);
      case LinkSpan(mid, end) => LinkExactly(s, k, mid, end);
      case UrlSpan(end) => UrlExactly(s, k, end);
    }
    if TokenAt(s, k) == Some(t) {
      TokenSpelled(s, k);
    }
  }

  // ---------------------------------------------------------------------------
  // Reading on behind a token
  // ---------------------------------------------------------------------------

  function Moved(t: Token, d: nat): Token {
    match t
    case CodeSpan(end) => CodeSpan(end + d)
    case LinkSpan(mid, end) => LinkSpan(mid + d, end + d)
    case UrlSpan(end) => UrlSpan(end + d)
  }

  lemma TailScheme(s: string, d: nat, k: nat)
    requires d + k <= |s|
    ensures SchemeAt(s[d..], k) == SchemeAt(s, d + k)
  {
    TailStartsAt(s, d, k, "https://");
    TailStartsAt(s, d, k, "http://");
    hide StartsAt;
  }

  lemma TailSpells(s: string, d: nat, k: nat, t: Token)
    requires d + k <= |s|
    ensures Spells(s[d..], k, t) <==> Spells(s, d + k, Moved(t, d))
  {
    hide *;
    match t
    case CodeSpan(end) => TailCode(s, d, k, end);
    case LinkSpan(mid, end) => TailLink(s, d, k, mid, end);
    case UrlSpan(end) => TailUrl(s, d, k, end);
  }

  lemma TailCode(s: string, d: nat, k: nat, end: nat)
    requires d + k <= |s|
    ensures Spells(s[d..], k, CodeSpan(end)) <==> Spells(s, d + k, Moved(CodeSpan(end), d))
  {
    assert forall i | d + k <= i < d + end && d + end <= |s| :: s[i] == s[d..][i - d];
  }

  lemma TailLink(s: string, d: nat, k: nat, mid: nat, end: nat)
    requires d + k <= |s|
    ensures Spells(s[d..], k, LinkSpan(mid, end)) <==> Spells(s, d + k, Moved(LinkSpan(mid, end), d))
  {
    hide IsSpace;
    var tail := s[d..];
    assert forall i | d <= i < |s| :: s[i] == tail[i - d];
    assert d + end <= |s| ==> forall i | k <= i < end :: tail[i] == s[d + i];
  }

  lemma TailUrl(s: string, d: nat, k: nat, end: nat)
    requires d + k <= |s|
    ensures Spells(s[d..], k, UrlSpan(end)) <==> Spells(s, d + k, Moved(UrlSpan(end), d))
  {
    TailScheme(s, d, k);
    hide IsSpace, SchemeAt;
    assert forall i | d + k <= i < d + end && d + end <= |s| :: s[i] == s[d..][i - d];
  }

  lemma TailToken(s: string, d: nat, k: nat)
    requires d + k < |s|
    ensures TokenAt(s, d + k) == match TokenAt(s[d..], k) case None => None case Some(t) => Some(Moved(t, d))
  {
    hide Spells, TokenAt;
    if TokenAt(s[d..], k).Some? {
      var t := TokenAt(s[d..], k).value;
      TokenExactly(s[d..], k, t);
      TailSpells(s, d, k, t);
      TokenExactly(s, d + k, Moved(t, d));
    } else if TokenAt(s, d + k).Some? {
      var t := TokenAt(s, d + k).value;
      TokenExactly(s, d + k, t);
      var t' := BackIn(s, d, k, t);
      TailSpells(s, d, k, t');
      TokenExactly(s[d..], k, t');
    }
  }

  lemma BackIn(s: string, d: nat, k: nat, t: Token) returns (t': Token)
    requires d + k < |s| && Spells(s, d + k, t)
    ensures Moved(t', d) == t
  {
    match t
    case CodeSpan(end) => t' := CodeSpan(end - d);
    case LinkSpan(mid, end) => t' := LinkSpan(mid - d, end - d);
    case UrlSpan(end) => t' := UrlSpan(end - d);
  }

  lemma {:induction false} TailNextToken(s: string, d: nat, k: nat)
    requires d + k <= |s|
    ensures NextToken(s, d + k) ==
            match NextToken(s[d..], k) case None => None case Some((j, t)) => Some((d + j, Moved(t, d)))
    decreases |s| - k
  {
    hide TokenAt;
    if d + k < |s| {
      TailToken(s, d, k);
      TailNextToken(s, d, k + 1);
    }
  }

  lemma TailHtml(s: string, d: nat, k: nat, t: Token)
    requires d <= |s| && Matches(s[d..], k, t) && Matches(s, d + k, Moved(t, d))
    ensures TokenHtml(s, d + k, Moved(t, d)) == TokenHtml(s[d..], k, t)
  {
    hide Matches, TokenHtml;
    match t
    case CodeSpan(end) => TailCodeHtml(s, d, k, end);
    case LinkSpan(mid, end) => TailLinkHtml(s, d, k, mid, end);
    case UrlSpan(end) => TailUrlHtml(s, d, k, end);
  }

  lemma TailCodeHtml(s: string, d: nat, k: nat, end: nat)
    requires d <= |s| && Matches(s[d..], k, CodeSpan(end)) && Matches(s, d + k, CodeSpan(end + d))
    ensures TokenHtml(s, d + k, CodeSpan(end + d)) == TokenHtml(s[d..], k, CodeSpan(end))
  {
    TailSlice(s, d, d + k + 1, d + end - 1);
  }

  lemma TailLinkHtml(s: string, d: nat, k: nat, mid: nat, end: nat)
    requires d <= |s| && Matches(s[d..], k, LinkSpan(mid, end)) && Matches(s, d + k, LinkSpan(mid + d, end + d))
    ensures TokenHtml(s, d + k, LinkSpan(mid + d, end + d)) == TokenHtml(s[d..], k, LinkSpan(mid, end))
  {
    hide LinkOrText, IsSpace;
    TailSlice(s, d, d + k + 1, d + mid);
    TailSlice(s, d, d + mid + 2, d + end - 1);
  }

  lemma TailUrlHtml(s: string, d: nat, k: nat, end: nat)
    requires d <= |s| && Matches(s[d..], k, UrlSpan(end)) && Matches(s, d + k, UrlSpan(end + d))
    ensures TokenHtml(s, d + k, UrlSpan(end + d)) == TokenHtml(s[d..], k, UrlSpan(end))
  {
    hide LinkOrText, IsSpace;
    TailSlice(s, d, d + k, d + end);
  }

  lemma {:induction false} TailInline(s: string, d: nat, k: nat)
    requires d + k <= |s|
    ensures InlineFrom(s, d + k) == InlineFrom(s[d..], k)
    decreases |s| - k
  {
    hide *;
    TailNextToken(s, d, k);
    InlineStep(s, d + k);
    InlineStep(s[d..], k);
    match NextToken(s[d..], k)
    case None => TailSlice(s, d, d + k, |s|);
    case Some((j, t)) =>
      TailSlice(s, d, d + k, d + j);
      TailHtml(s, d, j, t);
      MovedEnd(t, d);
      TailInline(s, d, t.end);
  }

  lemma MovedEnd(t: Token, d: nat)
    ensures Moved(t, d).end == t.end + d
  {
  }

  // ---------------------------------------------------------------------------
  // A token in a text
  // ---------------------------------------------------------------------------

  /** Text in which no token begins. */
  predicate Bare(s: string) {
    '`' !in s && '[' !in s && ':' !in s
  }

  lemma BareBefore(a: string, tail: string, j: nat)
    requires Bare(a) && j < |a| && tail != [] && (tail[0] == '`' || tail[0] == '[' || tail[0] == 'h')
    ensures TokenAt(a + tail, j).None?
  {
    var s := a + tail;
    assert s[j] == a[j] && a[j] in a && s[|a|] == tail[0];
    assert forall i | 0 <= i < |a| :: s[i] == a[i] && a[i] in a;
    if StartsAt(s, j, "https://") {
      WordAt(s, j, "https://", 5);
      assert |a| <= j + 5;
      WordAt(s, j, "https://", |a| - j);
    }
    if StartsAt(s, j, "http://") {
      WordAt(s, j, "http://", 4);
      assert |a| <= j + 4;
      WordAt(s, j, "http://", |a| - j);
    }
    hide Until, ClosingParen, IsSpace;
  }

  lemma {:induction false} BareUpTo(a: string, tail: string, t: Token, k: nat)
    requires Bare(a) && k <= |a| && tail != [] && Spells(tail, 0, t)
    requires tail[0] == '`' || tail[0] == '[' || tail[0] == 'h'
    ensures NextToken(a + tail, k) == Some((|a|, Moved(t, |a|)))
    decreases |a| - k
  {
    hide TokenAt, Spells, Bare;
    if k == |a| {
      assert (a + tail)[|a|..] == tail;
      TailSpells(a + tail, |a|, 0, t);
      TokenExactly(a + tail, |a|, Moved(t, |a|));
    } else {
      BareBefore(a, tail, k);
      BareUpTo(a, tail, t, k + 1);
    }
  }

  lemma InlineToken(a: string, tail: string, t: Token)
    requires Bare(a) && tail != [] && Spells(tail, 0, t) && t.end <= |tail|
    requires tail[0] == '`' || tail[0] == '[' || tail[0] == 'h'
    ensures Matches(tail, 0, t)
    ensures InlineFrom(a + tail, 0) == Emphasis(a) + TokenHtml(tail, 0, t) + InlineFrom(tail[t.end..], 0)
  {
    TokenExactly(tail, 0, t);
    assert Matches(tail, 0, t);
    BareUpTo(a, tail, t, 0);
    hide *;
    AfterToken(a, tail, t);
  }

  lemma PiecesFrom(a: string, b: string)
    ensures (a + b)[0..|a|] == a && (a + b)[|a|..] == b
  {
  }

  lemma AfterToken(a: string, tail: string, t: Token)
    requires Matches(tail, 0, t) && t.end <= |tail| && NextToken(a + tail, 0) == Some((|a|, Moved(t, |a|)))
    ensures InlineFrom(a + tail, 0) == Emphasis(a) + TokenHtml(tail, 0, t) + InlineFrom(tail[t.end..], 0)
  {
    hide *;
    var s, moved := a + tail, Moved(t, |a|);
    PiecesFrom(a, tail);
    InlineAt(s, |a|, moved);
    assert InlineFrom(s, moved.end) == InlineFrom(tail[t.end..], 0) by {
      MovedEnd(t, |a|);
      TailInline(s, |a|, t.end);
      TailInline(tail, t.end, 0);
    }
    assert TokenHtml(s, |a|, moved) == TokenHtml(tail, 0, t) by {
      TailHtml(s, |a|, 0, t);
    }
  }

  lemma InlineAt(s: string, k: nat, t: Token)
    requires NextToken(s, 0) == Some((k, t))
    ensures InlineFrom(s, 0) == Emphasis(s[0..k]) + TokenHtml(s, k, t) + InlineFrom(s, t.end)
  {
    hide *;
    InlineStep(s, 0);
  }

  lemma BareRenders(a: string)
    requires Bare(a)
    ensures Bare(EscapeHtml(a)) && RenderInline(a) == Replace(Emphasis(EscapeHtml(a)), '\n', "<br>")
  {
    var esc := EscapeHtml(a);
    EscapeIsOneMap(a);
    assert Seam('`') && Seam('[') && Seam(':');
    EscapedKeepsOut(a, '`');
    EscapedKeepsOut(a, '[');
    EscapedKeepsOut(a, ':');
    NoTokens(esc, 0);
    InlineStep(esc, 0);
    assert esc[0..] == esc;
    hide EscapeHtml, NextToken, Emphasis, Replace, Seam, ShowText;
  }

  /** A token between a bare text and any other: the three are rendered one after the other. */
  lemma TokenRenders(a: string, source: string, b: string, t: Token)
    requires Bare(a) && EscapeHtml(source) != "" && EscapeHtml(source)[0] in "`[h"
    requires Spells(EscapeHtml(source) + EscapeHtml(b), 0, t) && t.end == |EscapeHtml(source)|
    ensures Matches(EscapeHtml(source) + EscapeHtml(b), 0, t)
    ensures RenderInline(a + (source + b)) ==
            RenderInline(a) + Replace(TokenHtml(EscapeHtml(source) + EscapeHtml(b), 0, t), '\n', "<br>")
            + RenderInline(b)
  {
    BareRenders(a);
    EscapeConcat(a, source + b);
    EscapeConcat(source, b);
    assert forall s :: RenderInline(s) == Replace(InlineFrom(EscapeHtml(s), 0), '\n', "<br>");
    var head, tail := EscapeHtml(a), EscapeHtml(source) + EscapeHtml(b);
    assert tail[0] == EscapeHtml(source)[0] && tail[t.end..] == EscapeHtml(b);
    hide *;
    InlineToken(head, tail, t);
    var html := TokenHtml(tail, 0, t);
    ReplaceConcat(Emphasis(head) + html, InlineFrom(EscapeHtml(b), 0), '\n', "<br>");
    ReplaceConcat(Emphasis(head), html, '\n', "<br>");
  }

  // ---------------------------------------------------------------------------
  // The three tokens
  // ---------------------------------------------------------------------------

  lemma EscapesTo(s: string, c: char)
    requires c !in s && Seam(c)
    ensures c !in EscapeHtml(s)
  {
    EscapeIsOneMap(s);
    EscapedKeepsOut(s, c);
  }

  lemma {:induction false} EscapedNotShorter(s: string)
    ensures |EscapeHtml(s)| >= |s|
  {
    EscapeIsOneMap(s);
    if s != [] {
      EscapedNotShorter(s[1..]);
      EscapeIsOneMap(s[1..]);
    }
    hide EscapeHtml;
  }

  /** Characters that need no entity are escaped to themselves. */
  lemma {:induction false} EscapesToItself(s: string)
    requires forall c | c in s :: c !in "&<>\""
    ensures EscapeHtml(s) == s
  {
    ReplaceNone(s, '&', "&amp;");
    ReplaceNone(s, '<', "&lt;");
    ReplaceNone(s, '>', "&gt;");
    ReplaceNone(s, '"', "&quot;");
  }

  /** What stands between two ticks is code: escaped, and with no markup of its own. */
  lemma CodeRenders(a: string, code: string, b: string)
    requires Bare(a) && code != "" && '`' !in code && '\n' !in code
    ensures RenderInline(a + (("`" + code + "`") + b)) ==
            RenderInline(a) + ("<code>" + EscapeHtml(code) + "</code>") + RenderInline(b)
  {
    var esc, rest := EscapeHtml(code), EscapeHtml(b);
    assert Seam('`') && Seam('\n');
    EscapesTo(code, '`');
    EscapesTo(code, '\n');
    EscapedNotShorter(code);
    EscapesToItself("`");
    EscapeConcat("`" + code, "`");
    EscapeConcat("`", code);
    hide EscapeHtml;
    var token := "`" + esc + "`";
    CodeSpelled(esc, rest);
    var t := CodeSpan(|token|);
    assert EscapeHtml("`" + code + "`") == token && token[0] == '`';
    TokenRenders(a, "`" + code + "`", b, t);
    var html := "<code>" + esc + "</code>";
    assert TokenHtml(token + rest, 0, t) == html;
    hide *;
    ReplaceNone(html, '\n', "<br>");
  }

  lemma CodeSpelled(esc: string, rest: string)
    requires esc != "" && '`' !in esc && '\n' !in esc
    ensures var s, t := "`" + esc + "`" + rest, CodeSpan(|esc| + 2);
            && Spells(s, 0, t) && Matches(s, 0, t) && s[1..|esc| + 1] == esc
            && '\n' !in "<code>" + esc + "</code>"
  {
    var s := "`" + esc + "`" + rest;
    assert s == "`" + (esc + ("`" + rest));
    assert forall i | 0 < i < |esc| + 1 :: s[i] == esc[i - 1] && esc[i - 1] in esc;
    assert s[|esc| + 1] == '`';
    assert '\n' !in "<code>" && '\n' !in "</code>";
  }

  predicate NoSpace(s: string) {
    forall c | c in s :: !IsSpace(c)
  }

  lemma EscapesNoSpace(s: string)
    requires NoSpace(s)
    ensures NoSpace(EscapeHtml(s))
  {
    forall c | IsSpace(c) ensures c !in EscapeHtml(s) {
      SpacesAreSeams(c);
      EscapesTo(s, c);
    }
    hide EscapeHtml, Seam;
  }

  /** A link for an http address, and text for any other. */
  function Anchor(caption: string, url: string): string {
    if HttpUrl(url) then "<a href=\"" + url + "\" target=\"_blank\" rel=\"noreferrer\">" + caption + "</a>"
    else caption + " (" + url + ")"
  }

  lemma AnchorHasNoNewline(caption: string, url: string)
    requires '\n' !in caption && NoSpace(url)
    ensures LinkOrText(caption, url) == Anchor(caption, url)
    ensures Replace(Anchor(caption, url), '\n', "<br>") == Anchor(caption, url)
  {
    assert IsSpace('\n');
    assert '\n' !in url;
    assert '\n' !in LINK_OPEN && '\n' !in LINK_MIDDLE && '\n' !in "</a>" && '\n' !in " (" && '\n' !in ")";
    hide HttpUrl, IsSpace, NoSpace;
    assert '\n' !in Anchor(caption, url);
    ReplaceNone(Anchor(caption, url), '\n', "<br>");
  }

  /** A caption in square brackets and an address in round ones are a link, or text if the address is no http one. */
  lemma LinkRenders(a: string, caption: string, url: string, b: string)
    requires Bare(a) && caption != "" && '[' !in caption && ']' !in caption && '\n' !in caption
    requires url != "" && NoSpace(url) && ')' !in url
    ensures RenderInline(a + (("[" + caption + "](" + url + ")") + b)) ==
            RenderInline(a) + Anchor(EscapeHtml(caption), EscapeHtml(url)) + RenderInline(b)
  {
    var c, u, rest := EscapeHtml(caption), EscapeHtml(url), EscapeHtml(b);
    assert Seam('[') && Seam(']') && Seam('\n') && Seam(')');
    EscapesTo(caption, '[');
    EscapesTo(caption, ']');
    EscapesTo(caption, '\n');
    EscapesTo(url, ')');
    EscapesNoSpace(url);
    EscapedNotShorter(caption);
    EscapedNotShorter(url);
    LinkEscapes(caption, url);
    AnchorHasNoNewline(c, u);
    hide *;
    LinkSpelled(c, u, rest);
    var token, t := "[" + c + "](" + u + ")", LinkSpan(|c| + 1, |c| + |u| + 4);
    assert token[0] == '[';
    TokenRenders(a, "[" + caption + "](" + url + ")", b, t);
  }

  lemma LinkEscapes(caption: string, url: string)
    ensures EscapeHtml("[" + caption + "](" + url + ")") == "[" + EscapeHtml(caption) + "](" + EscapeHtml(url) + ")"
  {
    EscapesToItself("[");
    EscapesToItself("](");
    EscapesToItself(")");
    hide EscapeHtml;
    EscapeConcat("[" + caption + "](" + url, ")");
    EscapeConcat("[" + caption + "](", url);
    EscapeConcat("[" + caption, "](");
    EscapeConcat("[", caption);
  }

  lemma LinkPlaces(c: string, u: string, rest: string)
    ensures var s, m := "[" + c + "](" + u + ")" + rest, |c| + 1;
            && |s| == m + 3 + |u| + |rest| && s[0] == '[' && s[1..m] == c && s[m] == ']' && s[m + 1] == '('
            && s[m + 2..m + 2 + |u|] == u && s[m + 2 + |u|] == ')'
  {
    var s, m := "[" + c + "](" + u + ")" + rest, |c| + 1;
    var tail := "](" + (u + (")" + rest));
    assert s == "[" + (c + tail);
    TwoPieces("[", c + tail);
    TwoPieces(c, tail);
    TwoPieces("](", u + (")" + rest));
    TwoPieces(u, ")" + rest);
    SliceOfTail(s, 1, 0, |c|);
    SliceOfTail(s, m, 2, 2 + |u|);
    assert s[m..] == tail by {
      TailOfTail(s, 1, |c|);
    }
    assert s[m + 2..] == u + (")" + rest) by {
      TailOfTail(s, m, 2);
    }
    assert s[m] == tail[0] && s[m + 1] == tail[1];
    assert s[m + 2 + |u|] == (u + (")" + rest))[|u|];
  }

  lemma TailOfTail(s: string, i: nat, j: nat)
    requires i + j <= |s|
    ensures s[i..][j..] == s[i + j..]
  {
  }

  lemma SliceOfTail(s: string, i: nat, j: nat, k: nat)
    requires j <= k && i + k <= |s|
    ensures s[i..][j..k] == s[i + j..i + k]
  {
  }

  lemma LinkSpelled(c: string, u: string, rest: string)
    requires c != "" && '[' !in c && ']' !in c && '\n' !in c && u != "" && NoSpace(u) && ')' !in u
    ensures var s, t := "[" + c + "](" + u + ")" + rest, LinkSpan(|c| + 1, |c| + |u| + 4);
            && Spells(s, 0, t) && Matches(s, 0, t) && TokenHtml(s, 0, t) == LinkOrText(c, u)
  {
    LinkPlaces(c, u, rest);
    var s, m := "[" + c + "](" + u + ")" + rest, |c| + 1;
    hide IsSpace, LinkOrText;
    forall i | 0 < i < m ensures s[i] in c {
      assert s[i] == s[1..m][i - 1];
    }
    forall i | m + 2 <= i < m + 2 + |u| ensures s[i] in u {
      assert s[i] == s[m + 2..m + 2 + |u|][i - m - 2];
    }
  }

  /** Which addresses are http ones: in any case, a scheme with something behind it and no white space. */
  lemma HttpUrlExactly(url: string)
    ensures HttpUrl(url) <==> NoSpace(url) && ("http://" < Lower(url) || "https://" < Lower(url))
  {
    LowerLength(url);
    var low := Lower(url);
    hide IsSpace, Lower;
    assert "http://" <= low <==> StartsAt(low, 0, "http://");
    assert "https://" <= low <==> StartsAt(low, 0, "https://");
    if "https://" <= low {
      assert low[4] == 's' && !("http://" <= low);
    }
  }

  lemma {:induction false} LowerLength(s: string)
    ensures |Lower(s)| == |s|
  {
    if s != [] {
      LowerLength(s[1..]);
    }
  }

  predicate Scheme(s: string) {
    s == "http://" || s == "https://"
  }

  lemma SchemeStays(scheme: string, x: string, rest: string)
    requires Scheme(scheme) && x != ""
    ensures EscapeHtml(scheme + x) == scheme + EscapeHtml(x)
    ensures SchemeAt(scheme + EscapeHtml(x) + rest, 0) == |scheme|
    ensures scheme < Lower(scheme + EscapeHtml(x))
    ensures NoSpace(scheme)
  {
    hide *;
    SchemeIsPlain(scheme);
    EscapeConcat(scheme, x);
    EscapedNotShorter(x);
    SchemeFound(scheme, EscapeHtml(x), rest);
    LowerScheme(scheme, EscapeHtml(x));
  }

  lemma SchemeIsPlain(scheme: string)
    requires Scheme(scheme)
    ensures EscapeHtml(scheme) == scheme && NoSpace(scheme)
  {
    SchemeChars(scheme);
    hide *;
    EscapesToItself(scheme);
  }

  lemma SchemeChars(scheme: string)
    requires Scheme(scheme)
    ensures NoSpace(scheme) && forall c | c in scheme :: c !in "&<>\""
  {
    forall c | c in scheme ensures c == 'h' || c == 't' || c == 'p' || c == 's' || c == ':' || c == '/' {
      var i :| 0 <= i < |scheme| && scheme[i] == c;
    }
  }

  lemma SchemeFound(scheme: string, e: string, rest: string)
    requires Scheme(scheme)
    ensures SchemeAt(scheme + e + rest, 0) == |scheme|
  {
    var s := scheme + e + rest;
    assert s == scheme + (e + rest);
    HereAt(scheme, e + rest);
    if scheme == "http://" {
      assert s[4] == scheme[4];
      NotAt(s, "https://", 4);
    }
  }

  lemma LowerScheme(scheme: string, e: string)
    requires Scheme(scheme) && e != ""
    ensures scheme < Lower(scheme + e)
  {
    LowerLength(scheme + e);
    LowerConcat(scheme, e);
    LowerStays(scheme);
    hide Lower;
  }

  lemma {:induction false} LowerStays(s: string)
    requires forall c | c in s :: LowerChar(c) == c
    ensures Lower(s) == s
  {
    if s != [] {
      LowerStays(s[1..]);
    }
  }

  lemma {:induction false} LowerConcat(a: string, b: string)
    ensures Lower(a + b) == Lower(a) + Lower(b)
  {
    if a == [] {
      assert a + b == b;
    } else {
      assert (a + b)[1..] == a[1..] + b;
      LowerConcat(a[1..], b);
    }
  }

  lemma SpaceFirst(b: string)
    requires b != "" && IsSpace(b[0])
    ensures EscapeHtml(b) != "" && EscapeHtml(b)[0] == b[0]
  {
    assert b == [b[0]] + b[1..];
    EscapesToItself([b[0]]);
    EscapeConcat([b[0]], b[1..]);
    hide EscapeHtml;
  }

  /** A bare http address, up to the next white space, is a link to itself. */
  lemma UrlRenders(a: string, scheme: string, x: string, b: string)
    requires Bare(a) && Scheme(scheme) && x != "" && NoSpace(x)
    requires b == "" || IsSpace(b[0])
    ensures var url := EscapeHtml(scheme + x);
            HttpUrl(url) && RenderInline(a + ((scheme + x) + b)) == RenderInline(a) + Anchor(url, url) + RenderInline(b)
  {
    var url, rest := EscapeHtml(scheme + x), EscapeHtml(b);
    SchemeStays(scheme, x, rest);
    EscapesNoSpace(x);
    assert NoSpace(url);
    HttpUrlExactly(url);
    if b == "" {
      EscapesToItself(b);
    } else {
      SpaceFirst(b);
    }
    EscapedNotShorter(x);
    hide EscapeHtml, Lower, HttpUrl;
    var t := UrlSpan(|url|);
    UrlSpelled(scheme, EscapeHtml(x), rest);
    TokenRenders(a, scheme + x, b, t);
    assert IsSpace('\n') && '\n' !in url;
    AnchorHasNoNewline(url, url);
    hide *;
  }

  lemma UrlSpelled(scheme: string, e: string, rest: string)
    requires Scheme(scheme) && SchemeAt(scheme + e + rest, 0) == |scheme|
    requires e != "" && NoSpace(e) && NoSpace(scheme) && (rest == "" || IsSpace(rest[0]))
    ensures var s, t := scheme + e + rest, UrlSpan(|scheme + e|);
            && Spells(s, 0, t) && Matches(s, 0, t) && TokenHtml(s, 0, t) == LinkOrText(scheme + e, scheme + e)
  {
    hide IsSpace, SchemeAt, LinkOrText;
    var url := scheme + e;
    TwoPieces(url, rest);
    forall i | 0 <= i < |url| ensures !IsSpace((url + rest)[i]) {
      assert (url + rest)[i] == url[i];
      assert url[i] in scheme || url[i] in e;
    }
  }

  // ---------------------------------------------------------------------------
  // Emphasis
  // ---------------------------------------------------------------------------

  /** `(\S[^*\n]*\S|\S)` between two markers of `w` stars, from `k` to behind the content at `end`. */
  predicate Spans(s: string, k: nat, w: nat, end: nat) {
    && StarsAt(s, k, w) && StarsAt(s, end, w) && k + w < end
    && !IsSpace(s[k + w]) && !IsSpace(s[end - 1])
    && forall i | k + w < i < end - 1 :: s[i] != '*' && s[i] != '\n'
  }

  lemma {:induction false} LongestExactly(s: string, k: nat, p: nat, w: nat)
    requires k < p <= |s|
    ensures match LongestSpan(s, k, p, w)
            case None => forall q | k < q <= p :: !(q < |s| && !IsSpace(s[q]) && StarsAt(s, q + 1, w))
            case Some(end) =>
              && k + 1 < end <= p + 1 && end <= |s| && !IsSpace(s[end - 1]) && StarsAt(s, end, w)
              && forall q | end - 1 < q <= p :: !(q < |s| && !IsSpace(s[q]) && StarsAt(s, q + 1, w))
    decreases p
  {
    hide IsSpace, StarsAt;
    if !(p < |s| && !IsSpace(s[p]) && StarsAt(s, p + 1, w)) && p != k + 1 {
      LongestExactly(s, k, p - 1, w);
    }
  }

  /** The content of a span reaches as far as the pattern allows. */
  lemma SpanExactly(s: string, k: nat, w: nat)
    requires w > 0
    ensures match SpanAt(s, k, w)
            case None => forall end: nat :: !Spans(s, k, w, end)
            case Some(end) => Spans(s, k, w, end) && forall further: nat | further > end :: !Spans(s, k, w, further)
  {
    if StarsAt(s, k, w) && k + w < |s| && !IsSpace(s[k + w]) {
      var run := Until(s, k + w + 1, c => c == '*' || c == '\n');
      assert run < |s| ==> s[run] == '*' || s[run] == '\n';
      LongestExactly(s, k + w, run, w);
      hide LongestSpan, Until, IsSpace;
      forall end: nat | Spans(s, k, w, end) && end > k + w + 1 ensures end - 1 <= run {
        assert s[end] == '*';
      }
    }
  }
}

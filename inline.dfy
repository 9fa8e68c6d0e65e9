/**
 * The inline rewrites that the markdown converter of the publishing functions and the Word
 * formatter of the browser post manager share: `**x**` to `<strong>`, `*x*` to `<em>`, fenced
 * and inline code, and `[text](url)` to an anchor. Each one is a global regular-expression
 * replace with a fixed pattern; it is modelled as the scan the regular-expression engine
 * performs: at each position try to match, on success emit the replacement and continue after
 * the match, on failure copy one character and move on.
 */
module Inline {
  import opened Wrappers
  import opened Text
  import opened Seqs

  /** The four delimiter-pair rewrites. */
  datatype Pair = Bold | Italic | Fence | Code

  function Delim(k: Pair): string {
    match k
    case Bold => "**"
    case Italic => "*"
    case Fence => "```"
    case Code => "`"
  }

  function OpenTag(k: Pair): string {
    match k
    case Bold => "<strong>"
    case Italic => "<em>"
    case Fence => "<pre><code>"
    case Code => "<code>"
  }

  function CloseTag(k: Pair): string {
    match k
    case Bold => "</strong>"
    case Italic => "</em>"
    case Fence => "</code></pre>"
    case Code => "</code>"
  }

  /** Bold and italic capture with `.*?`, which stops at a line end; the code patterns capture
      with `[\s\S]*?` and `[^`]+`, which cross lines. */
  predicate WithinLine(k: Pair) {
    k == Bold || k == Italic
  }

  /** Inline code needs at least one character between its backticks (`[^`]+`). */
  predicate NeedsText(k: Pair) {
    k == Code
  }

  /** Text the pattern of `k` may capture. */
  predicate ContentOk(k: Pair, c: string) {
    (WithinLine(k) ==> NoLineTerminator(c)) && (NeedsText(k) ==> |c| > 0)
  }

  /**
   * The lazy capture, as the regular-expression engine runs it from index `i` of `s`: if the
   * closing delimiter is at `i` the match ends there (for inline code only when something was
   * captured); otherwise the character at `i` is taken into the capture, unless it is a line
   * end and the pattern is `.*?`. The result is the length of the capture.
   */
  function CloseFrom(k: Pair, s: string, i: nat): (r: Option<nat>)
    requires |Delim(k)| <= i <= |s|
    ensures r.Some? ==> 2 * |Delim(k)| + r.value <= |s|
    decreases |s| - i
  {
    var d := Delim(k);
    if i + |d| > |s| then None
    else if s[i..i + |d|] == d then (if NeedsText(k) && i == |d| then None else Some(i - |d|))
    else if WithinLine(k) && IsLineTerminator(s[i]) then None
    else CloseFrom(k, s, i + 1)
  }

  /**
   * The length of the text captured by a match of the pattern of `k` at the start of `s`:
   * a match starts at a delimiter and ends at the first later delimiter.
   */
  function SpanAt(k: Pair, s: string): (r: Option<nat>)
    ensures r.Some? ==> 2 * |Delim(k)| + r.value <= |s|
  {
    var d := Delim(k);
    if d <= s then CloseFrom(k, s, |d|) else None
  }

  /** What the rewrite emits for the start of `s`: the tags around a match, or one character. */
  function Piece(k: Pair, s: string): string
    requires |s| > 0
  {
    var d := Delim(k);
    match SpanAt(k, s)
    case Some(j) => OpenTag(k) + s[|d|..|d| + j] + CloseTag(k)
    case None => [s[0]]
  }

  /** Where the scan goes on: after a match at the start of `s`, or after its first character. */
  function Resume(k: Pair, s: string): (n: nat)
    requires |s| > 0
    ensures 0 < n <= |s|
  {
    match SpanAt(k, s)
    case Some(j) => 2 * |Delim(k)| + j
    case None => 1
  }

  /** `s.replace(/D(.*?)D/g, '<t>$1</t>')` for the delimiter D of `k`. */
  function Rewrite(k: Pair, s: string): string
    decreases |s|
  {
    if |s| == 0 then "" else Piece(k, s) + Rewrite(k, s[Resume(k, s)..])
  }

  /** What a match captures: text without the delimiter's first character, ended by the
      delimiter, that the pattern accepts. */
  lemma {:induction false} CloseFromAt(k: Pair, s: string, i: nat, e: nat)
    requires |Delim(k)| <= i <= e && e + |Delim(k)| <= |s| && s[e..e + |Delim(k)|] == Delim(k)
    requires forall m :: i <= m < e ==> s[m] != Delim(k)[0]
    requires WithinLine(k) ==> forall m :: i <= m < e ==> !IsLineTerminator(s[m])
    requires !(NeedsText(k) && e == |Delim(k)|)
    ensures CloseFrom(k, s, i) == Some(e - |Delim(k)|)
    decreases e - i
  {
    if i < e {
      assert s[i..i + |Delim(k)|][0] == s[i];
      CloseFromAt(k, s, i + 1, e);
    }
  }

  lemma SpanOfPlain(k: Pair, x: string, rest: string)
    requires Delim(k)[0] !in x && ContentOk(k, x)
    ensures SpanAt(k, Delim(k) + x + Delim(k) + rest) == Some(|x|)
  {
    var d := Delim(k);
    var s := d + x + d + rest;
    assert s[..|d|] == d;
    assert forall m :: |d| <= m < |d| + |x| ==> s[m] == x[m - |d|];
    assert s[|d| + |x|..|d| + |x| + |d|] == d;
    CloseFromAt(k, s, |d|, |d| + |x|);
  }

  /** At a match, the tags and the capture are emitted and the scan resumes after it. */
  lemma PieceAtSpan(k: Pair, s: string, j: nat)
    requires |s| > 0 && SpanAt(k, s) == Some(j)
    ensures Piece(k, s) == OpenTag(k) + s[|Delim(k)|..|Delim(k)| + j] + CloseTag(k)
    ensures Resume(k, s) == |Delim(k)| + j + |Delim(k)|
  {
  }

  /** One delimited span is replaced by its tags, and the scan goes on after it. */
  lemma RewriteSpan(k: Pair, x: string, rest: string)
    requires Delim(k)[0] !in x && ContentOk(k, x)
    ensures Rewrite(k, Delim(k) + x + Delim(k) + rest)
         == OpenTag(k) + x + CloseTag(k) + Rewrite(k, rest)
  {
    var s := Delim(k) + x + Delim(k) + rest;
    calc {
      Rewrite(k, s);
      { RewriteUnfold(k, s); }
      Piece(k, s) + Rewrite(k, s[Resume(k, s)..]);
      { SpanOfPlain(k, x, rest); PieceAtSpan(k, s, |x|); SpanParts(Delim(k), x, rest); }
      OpenTag(k) + x + CloseTag(k) + Rewrite(k, rest);
    }
  }

  lemma RewriteUnfold(k: Pair, s: string)
    requires |s| > 0
    ensures Rewrite(k, s) == Piece(k, s) + Rewrite(k, s[Resume(k, s)..])
  {
  }

  /** The captured text and the text after a delimited span. */
  lemma SpanParts(d: string, x: string, rest: string)
    ensures (d + x + d + rest)[|d|..|d| + |x|] == x
    ensures (d + x + d + rest)[|d| + |x| + |d|..] == rest
  {
  }

  /** A character other than the delimiter's first is copied. */
  lemma RewriteCopy(k: Pair, s: string)
    requires |s| > 0 && s[0] != Delim(k)[0]
    ensures Rewrite(k, s) == [s[0]] + Rewrite(k, s[1..])
  {
    assert !(Delim(k) <= s);
    assert SpanAt(k, s) == None;
  }

  /** Text without the delimiter's first character is copied unchanged. */
  lemma {:induction false} RewritePlain(k: Pair, a: string, b: string)
    requires Delim(k)[0] !in a
    ensures Rewrite(k, a + b) == a + Rewrite(k, b)
    decreases |a|
  {
    if |a| == 0 {
      assert a + b == b;
    } else {
      ConsParts(a, b);
      RewriteCopy(k, a + b);
      RewritePlain(k, a[1..], b);
      ConsJoin(a, Rewrite(k, b));
    }
  }

  /** A delimiter character that does not start a match is copied, and the scan moves on. */
  lemma RewriteSkip(k: Pair, c: char, b: string)
    requires !(Delim(k) <= [c] + b)
    ensures Rewrite(k, [c] + b) == [c] + Rewrite(k, b)
  {
    assert SpanAt(k, [c] + b) == None;
    assert ([c] + b)[1..] == b;
  }

  /** The rewrite adds no character other than those of its tags. */
  lemma {:induction false} RewriteKeepsAbsent(k: Pair, s: string, ch: char)
    requires ch !in s && ch !in OpenTag(k) && ch !in CloseTag(k)
    ensures ch !in Rewrite(k, s)
    decreases |s|
  {
    if |s| > 0 {
      var n := Resume(k, s);
      SliceAbsent(s, n, |s|, ch);
      RewriteKeepsAbsent(k, s[n..], ch);
      AbsentStep(k, s, ch);
    }
  }

  lemma AbsentStep(k: Pair, s: string, ch: char)
    requires |s| > 0 && ch !in s && ch !in OpenTag(k) && ch !in CloseTag(k)
    requires ch !in Rewrite(k, s[Resume(k, s)..])
    ensures ch !in Rewrite(k, s)
  {
    var d := Delim(k);
    match SpanAt(k, s)
    case Some(j) =>
      SliceAbsent(s, |d|, |d| + j, ch);
      AbsentJoin4(OpenTag(k), s[|d|..|d| + j], CloseTag(k), [], ch);
    case None =>
  }

  lemma AbsentJoin4<T>(a: seq<T>, b: seq<T>, c: seq<T>, e: seq<T>, x: T)
    requires x !in a && x !in b && x !in c && x !in e
    ensures x !in a + b + c + e
  {
  }

  lemma SliceAbsent(s: string, i: nat, j: nat, ch: char)
    requires i <= j <= |s| && ch !in s
    ensures ch !in s[i..j]
  {
  }

  /** `<a href="url" target="_blank">text</a>`. */
  function Anchor(text: string, url: string): string {
    "<a href=\"" + url + "\" target=\"_blank\">" + text + "</a>"
  }

  datatype LinkMatch = LinkMatch(text: string, url: string, len: nat)

  /**
   * A match of `\[([^\]]+)\]\(([^)]+)\)` at the start of `s`: the text runs to the first `]`
   * and must not be empty, a `(` must follow at once, and the url runs to the first `)` and
   * must not be empty. Both parts may cross lines.
   */
  function LinkAt(s: string): (m: Option<LinkMatch>)
    requires |s| > 0 && s[0] == '['
    ensures m.Some? ==> 0 < m.value.len <= |s|
  {
    match IndexOf(s[1..], "]")
    case None => None
    case Some(k) =>
      if k == 0 || k + 2 >= |s| || s[k + 2] != '(' then None
      else
        match IndexOf(s[k + 3..], ")")
        case None => None
        case Some(m) =>
          if m == 0 then None
          else Some(LinkMatch(s[1..1 + k], s[k + 3..k + 3 + m], k + 3 + m + 1))
  }

  /** The text and url of a link are pieces of the scanned text. */
  lemma LinkAtParts(s: string)
    requires |s| > 0 && s[0] == '['
    ensures LinkAt(s).Some? ==> forall ch :: ch !in s ==> ch !in LinkAt(s).value.text && ch !in LinkAt(s).value.url
  {
    match IndexOf(s[1..], "]")
    case None =>
    case Some(k) =>
      if !(k == 0 || k + 2 >= |s| || s[k + 2] != '(') {
        match IndexOf(s[k + 3..], ")")
        case None =>
        case Some(m) =>
          if m != 0 {
            forall ch | ch !in s
              ensures ch !in s[1..1 + k] && ch !in s[k + 3..k + 3 + m]
            {
              SliceAbsent(s, 1, 1 + k, ch);
              SliceAbsent(s, k + 3, k + 3 + m, ch);
            }
          }
      }
  }

  /** `s.replace(/\[([^\]]+)\]\(([^)]+)\)/g, '<a href="$2" target="_blank">$1</a>')`. */
  function RewriteLinks(s: string): string
    decreases |s|
  {
    if |s| == 0 then ""
    else if s[0] == '[' then
      match LinkAt(s)
      case Some(m) => Anchor(m.text, m.url) + RewriteLinks(s[m.len..])
      case None => [s[0]] + RewriteLinks(s[1..])
    else [s[0]] + RewriteLinks(s[1..])
  }

  /** A well-formed `[text](url)` becomes an anchor opening in a new tab. */
  lemma RewriteLink(text: string, url: string, rest: string)
    requires |text| > 0 && ']' !in text
    requires |url| > 0 && ')' !in url
    ensures RewriteLinks("[" + text + "](" + url + ")" + rest) == Anchor(text, url) + RewriteLinks(rest)
  {
    var s := "[" + text + "](" + url + ")" + rest;
    LinkAtWellFormed(text, url, rest);
    assert s[|text| + |url| + 4..] == rest;
  }

  lemma LinkAtWellFormed(text: string, url: string, rest: string)
    requires |text| > 0 && ']' !in text
    requires |url| > 0 && ')' !in url
    ensures var s := "[" + text + "](" + url + ")" + rest;
      s[0] == '[' && LinkAt(s) == Some(LinkMatch(text, url, |text| + |url| + 4))
  {
    var s := "[" + text + "](" + url + ")" + rest;
    var k := |text|;
    LinkPieces(text, url, rest);
    FirstClose(text, "](" + url + ")" + rest, ']');
    FirstClose(url, ")" + rest, ')');
  }

  /** How `[text](url)rest` falls apart at its brackets. */
  lemma LinkPieces(text: string, url: string, rest: string)
    ensures var s := "[" + text + "](" + url + ")" + rest;
      s[0] == '[' && s[1..] == text + ("](" + url + ")" + rest)
      && s[|text| + 2] == '(' && s[|text| + 3..] == url + (")" + rest)
      && s[1..1 + |text|] == text && s[|text| + 3..|text| + 3 + |url|] == url
      && |s| == |text| + |url| + 4 + |rest|
  {
  }

  /** The first `c` in `a + t` is the one that starts `t`, when `a` has none. */
  lemma FirstClose(a: string, t: string, c: char)
    requires c !in a && |t| > 0 && t[0] == c
    ensures IndexOf(a + t, [c]) == Some(|a|)
  {
    assert OccursAt(a + t, [c], |a|) by { assert (a + t)[|a|..|a| + 1] == [c]; }
    FirstAfter(a + t, a, c);
  }

  /** A one-character pattern absent from a prefix does not occur inside it. */
  lemma FirstAfter(t: string, a: string, c: char)
    requires a <= t && c !in a
    ensures forall j: nat :: j < |a| ==> !OccursAt(t, [c], j)
  {
    forall j: nat | j < |a|
      ensures !OccursAt(t, [c], j)
    {
      assert t[j] == a[j];
      assert t[j..j + 1] == [a[j]];
    }
  }

  /** Text without `[` is copied unchanged by the link rewrite. */
  lemma {:induction false} RewriteLinksPlain(a: string, b: string)
    requires '[' !in a
    ensures RewriteLinks(a + b) == a + RewriteLinks(b)
    decreases |a|
  {
    if |a| == 0 {
      assert a + b == b;
    } else {
      var s := a + b;
      assert s[0] == a[0];
      assert RewriteLinks(s) == [s[0]] + RewriteLinks(s[1..]);
      assert s[1..] == a[1..] + b;
      RewriteLinksPlain(a[1..], b);
      assert a == [a[0]] + a[1..];
    }
  }

  /** The link rewrite adds no character other than those of its anchor markup. */
  lemma {:induction false} RewriteLinksKeepsAbsent(s: string, ch: char)
    requires ch !in s && ch !in Anchor("", "")
    ensures ch !in RewriteLinks(s)
    decreases |s|
  {
    if |s| > 0 {
      if s[0] == '[' {
        match LinkAt(s)
        case Some(m) =>
          LinkAtParts(s);
          SliceAbsent(s, m.len, |s|, ch);
          RewriteLinksKeepsAbsent(s[m.len..], ch);
        case None => RewriteLinksKeepsAbsent(s[1..], ch);
      } else {
        RewriteLinksKeepsAbsent(s[1..], ch);
      }
    }
  }
}

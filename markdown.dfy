/**
 * `convertMarkdownToHtml`, which the scheduled publisher and the immediate publisher hold in
 * identical copies: a fixed chain of global regular-expression replaces.
 *
 * The patterns anchored with `^...$` under the multiline flag act on each line on its own, so
 * they are modelled as a rule applied to every line (`MapLines`), with the line terminators
 * kept in place. The delimiter and link patterns are the scanners of `Inline`. The final three
 * clean-up patterns use a greedy `.*`, which stops at the end of the line and backtracks to the
 * LAST closing tag on it (`Unwrap`).
 */
module Markdown {
  import opened Wrappers
  import opened Text
  import opened Inline
  import opened Seqs

  /** The line rules of the chain, one per `^...$` pattern. */
  datatype LineRule = H3 | H2 | H1 | Quote | StarItem | DashItem | Para

  /** The text a line must start with for the rule to apply. */
  function Marker(r: LineRule): string {
    match r
    case H3 => "### "
    case H2 => "## "
    case H1 => "# "
    case Quote => "> "
    case StarItem => "* "
    case DashItem => "- "
    case Para => ""
  }

  function LineOpen(r: LineRule): string {
    match r
    case H3 => "<h3>"
    case H2 => "<h2>"
    case H1 => "<h1>"
    case Quote => "<blockquote>"
    case StarItem => "<li>"
    case DashItem => "<li>"
    case Para => "<p>"
  }

  function LineClose(r: LineRule): string {
    match r
    case H3 => "</h3>"
    case H2 => "</h2>"
    case H1 => "</h1>"
    case Quote => "</blockquote>"
    case StarItem => "</li>"
    case DashItem => "</li>"
    case Para => "</p>"
  }

  /**
   * One line, without its terminator, under one rule: `^M(.*$)` wraps what follows the marker
   * M, and `^(.+)$` wraps any line that is not empty.
   */
  function ApplyRule(r: LineRule, line: string): string {
    if r == Para then (if |line| > 0 then "<p>" + line + "</p>" else line)
    else if Marker(r) <= line then LineOpen(r) + line[|Marker(r)|..] + LineClose(r)
    else line
  }

  /** A rule never joins or splits lines. */
  lemma ApplyRuleKeepsLine(r: LineRule, line: string)
    requires NoLineTerminator(line)
    ensures NoLineTerminator(ApplyRule(r, line))
  {
    if r != Para && Marker(r) <= line {
      var k := |Marker(r)|;
      NoLineTerminatorSlice(line, k, |line|);
      assert line[k..|line|] == line[k..];
      RuleTagsOneLine(r);
      NoLineTerminatorJoin(LineOpen(r), line[k..], LineClose(r));
    } else if r == Para && |line| > 0 {
      RuleTagsOneLine(r);
      NoLineTerminatorJoin("<p>", line, "</p>");
    }
  }

  lemma RuleTagsOneLine(r: LineRule)
    ensures NoLineTerminator(LineOpen(r)) && NoLineTerminator(LineClose(r))
  {
  }

  lemma NoLineTerminatorJoin(a: string, b: string, c: string)
    requires NoLineTerminator(a) && NoLineTerminator(b) && NoLineTerminator(c)
    ensures NoLineTerminator(a + b + c)
  {
  }

  /** A prefix that differs at index `i` is not a prefix. */
  lemma NotPrefixAt(p: string, s: string, i: nat)
    requires i < |p| && i < |s| && p[i] != s[i]
    ensures !(p <= s)
  {
  }

  /** The index of the first line terminator of `s`, if any. */
  function FirstTerminator(s: string): (r: Option<nat>)
    ensures r.Some? ==> r.value < |s| && IsLineTerminator(s[r.value]) && NoLineTerminator(s[..r.value])
    ensures r.None? ==> NoLineTerminator(s)
    decreases |s|
  {
    if |s| == 0 then None
    else if IsLineTerminator(s[0]) then Some(0)
    else
      match FirstTerminator(s[1..])
      case None => None
      case Some(i) =>
        assert s[..i + 1] == [s[0]] + s[1..][..i];
        Some(i + 1)
  }

  /** `s.replace(/^M(.*$)/gim, ...)`: the rule applied to every line of `s`. */
  function MapLines(r: LineRule, s: string): string
    decreases |s|
  {
    match FirstTerminator(s)
    case None => ApplyRule(r, s)
    case Some(i) => ApplyRule(r, s[..i]) + [s[i]] + MapLines(r, s[i + 1..])
  }

  /** A line and its terminator: the rule rewrites the line and keeps the terminator. */
  lemma MapLinesCons(r: LineRule, line: string, c: char, rest: string)
    requires NoLineTerminator(line) && IsLineTerminator(c)
    ensures MapLines(r, line + [c] + rest) == ApplyRule(r, line) + [c] + MapLines(r, rest)
  {
    var s := line + [c] + rest;
    assert s[..|line|] == line;
    assert s[|line|] == c;
    assert s[..|line| + 1][|line|] == c;
    assert FirstTerminator(s) == Some(|line|);
    assert s[|line| + 1..] == rest;
  }

  /** The last line, with no terminator after it. */
  lemma MapLinesLast(r: LineRule, line: string)
    requires NoLineTerminator(line)
    ensures MapLines(r, line) == ApplyRule(r, line)
  {
  }

  // ---------------------------------------------------------------- headings

  /** The three heading rules, `###` first, on one line. */
  function HeadingLine(line: string): string {
    ApplyRule(H1, ApplyRule(H2, ApplyRule(H3, line)))
  }

  function Headings(s: string): string {
    MapLines(H1, MapLines(H2, MapLines(H3, s)))
  }

  /** The heading stage works line by line. */
  lemma HeadingsCons(line: string, c: char, rest: string)
    requires NoLineTerminator(line) && IsLineTerminator(c)
    ensures Headings(line + [c] + rest) == HeadingLine(line) + [c] + Headings(rest)
  {
    MapLinesCons(H3, line, c, rest);
    var l3 := ApplyRule(H3, line);
    ApplyRuleKeepsLine(H3, line);
    MapLinesCons(H2, l3, c, MapLines(H3, rest));
    var l2 := ApplyRule(H2, l3);
    ApplyRuleKeepsLine(H2, l3);
    MapLinesCons(H1, l2, c, MapLines(H2, MapLines(H3, rest)));
  }

  lemma HeadingsLast(line: string)
    requires NoLineTerminator(line)
    ensures Headings(line) == HeadingLine(line)
  {
    MapLinesLast(H3, line);
    ApplyRuleKeepsLine(H3, line);
    MapLinesLast(H2, ApplyRule(H3, line));
    ApplyRuleKeepsLine(H2, ApplyRule(H3, line));
    MapLinesLast(H1, ApplyRule(H2, ApplyRule(H3, line)));
  }

  /**
   * `# x`, `## x` and `### x` become `<h1>`, `<h2>` and `<h3>` around `x`; a line that starts
   * with none of the three markers (`#### x` among them) is left as it is.
   */
  lemma HeadingLevels(x: string, line: string)
    ensures HeadingLine("# " + x) == "<h1>" + x + "</h1>"
    ensures HeadingLine("## " + x) == "<h2>" + x + "</h2>"
    ensures HeadingLine("### " + x) == "<h3>" + x + "</h3>"
    ensures !("# " <= line) && !("## " <= line) && !("### " <= line) ==> HeadingLine(line) == line
  {
    assert ("# " + x)[2..] == x;
    NotPrefixAt("### ", "# " + x, 1);
    NotPrefixAt("## ", "# " + x, 1);
    assert ("## " + x)[3..] == x;
    NotPrefixAt("### ", "## " + x, 2);
    NotPrefixAt("# ", "<h2>" + x + "</h2>", 0);
    assert ("### " + x)[4..] == x;
    NotPrefixAt("## ", "<h3>" + x + "</h3>", 0);
    NotPrefixAt("# ", "<h3>" + x + "</h3>", 0);
  }

  // ---------------------------------------------------------------- inline rewrites

  /** Bold, italic, links, fenced code and inline code, in the order of the chain. */
  function Emphasis(s: string): string {
    Rewrite(Code, Rewrite(Fence, RewriteLinks(Rewrite(Italic, Rewrite(Bold, s)))))
  }

  /** Text with no delimiter, bracket or line terminator passes the inline stage unchanged. */
  lemma EmphasisPlain(a: string)
    requires '*' !in a && '`' !in a && '[' !in a
    ensures Emphasis(a) == a
  {
    assert a + "" == a;
    RewritePlain(Bold, a, "");
    RewritePlain(Italic, a, "");
    RewriteLinksPlain(a, "");
    RewritePlain(Fence, a, "");
    RewritePlain(Code, a, "");
  }

  /** Text that no inline pattern can start in. */
  predicate InlinePlain(a: string) {
    '*' !in a && '`' !in a && '[' !in a
  }

  /** A lone `*` followed by a character other than `*` is copied by the bold pass. */
  lemma LoneStar(x: string)
    requires |x| == 0 || x[0] != '*'
    ensures Rewrite(Bold, "*" + x) == "*" + Rewrite(Bold, x)
  {
    assert !(Delim(Bold) <= ['*'] + x) by {
      if |x| > 0 {
        assert (['*'] + x)[1] == x[0];
      }
    }
    RewriteSkip(Bold, '*', x);
  }

  /** Text after the bold span: a lone `*` never starts a bold match. */
  lemma BoldLeavesItalic(i: string, tail: string)
    requires |i| > 0 && '*' !in i && '*' !in tail
    ensures Rewrite(Bold, " and " + ("*" + (i + ("*" + tail)))) == " and " + ("*" + (i + ("*" + tail)))
  {
    var t1 := "*" + tail;
    var t2 := i + t1;
    var t3 := "*" + t2;
    assert Rewrite(Bold, tail) == tail by {
      assert tail + "" == tail;
      RewritePlain(Bold, tail, "");
    }
    assert Rewrite(Bold, t1) == t1 by {
      LoneStar(tail);
    }
    assert Rewrite(Bold, t2) == t2 by {
      RewritePlain(Bold, i, t1);
    }
    assert Rewrite(Bold, t3) == t3 by {
      assert t2[0] == i[0];
      LoneStar(t2);
    }
    RewritePlain(Bold, " and ", t3);
  }

  /** The bold pass on `**b** and *i*` followed by text without `*`. */
  lemma BoldPass(b: string, i: string, tail: string)
    requires InlinePlain(b) && |i| > 0 && InlinePlain(i) && '*' !in tail && NoLineTerminator(b)
    ensures Rewrite(Bold, "**" + b + "**" + (" and " + ("*" + (i + ("*" + tail)))))
         == "<strong>" + b + "</strong>" + (" and " + ("*" + (i + ("*" + tail))))
  {
    var after := " and " + ("*" + (i + ("*" + tail)));
    RewriteSpan(Bold, b, after);
    BoldLeavesItalic(i, tail);
  }

  /** The italic pass on the result of the bold pass. */
  lemma ItalicPass(head: string, i: string, tail: string)
    requires '*' !in head && InlinePlain(i) && '*' !in tail && NoLineTerminator(i)
    ensures Rewrite(Italic, head + ("*" + i + "*" + tail)) == head + ("<em>" + i + "</em>" + tail)
  {
    assert Rewrite(Italic, tail) == tail by {
      assert tail + "" == tail;
      RewritePlain(Italic, tail, "");
    }
    RewritePlain(Italic, head, Delim(Italic) + i + Delim(Italic) + tail);
    RewriteSpan(Italic, i, tail);
  }

  /** The link pass on the result of the italic pass. */
  lemma LinkPass(head: string, t: string, u: string)
    requires '[' !in head
    requires |t| > 0 && ']' !in t && |u| > 0 && ')' !in u
    ensures RewriteLinks(head + ("[" + t + "](" + u + ")")) == head + Anchor(t, u)
  {
    assert "[" + t + "](" + u + ")" == "[" + t + "](" + u + ")" + "";
    RewriteLinksPlain(head, "[" + t + "](" + u + ")" + "");
    RewriteLink(t, u, "");
  }

  /** The shape of the input once the bold span has been split off. */
  lemma ExampleInputShape(b: string, i: string, link: string)
    ensures "**" + b + "** and *" + i + "* " + link
         == "**" + b + "**" + (" and " + ("*" + (i + ("*" + (" " + link)))))
  {
  }

  /** The shape of the text once the bold pass has run. */
  lemma ExampleBoldShape(b: string, i: string, link: string)
    ensures "<strong>" + b + "</strong>" + (" and " + ("*" + (i + ("*" + (" " + link)))))
         == ("<strong>" + b + "</strong> and ") + ("*" + i + "*" + (" " + link))
  {
  }

  /** The shape of the text once the italic pass has run. */
  lemma ExampleItalicShape(b: string, i: string, link: string)
    ensures ("<strong>" + b + "</strong> and ") + ("<em>" + i + "</em>" + (" " + link))
         == ("<strong>" + b + "</strong> and <em>" + i + "</em> ") + link
  {
  }

  /**
   * The inline stage on `**b** and *i* [t](u)`, the shape of `**bold** and *italic*
   * [link](https://x.com)`: bold is matched before italic, so the double asterisks become
   * `<strong>`, the single ones `<em>`, and the link an anchor that opens in a new tab.
   */
  lemma EmphasisExample(b: string, i: string, t: string, u: string)
    requires InlinePlain(b) && InlinePlain(i) && InlinePlain(t) && InlinePlain(u)
    requires NoLineTerminator(b) && |i| > 0 && NoLineTerminator(i)
    requires |t| > 0 && ']' !in t && |u| > 0 && ')' !in u
    ensures Emphasis("**" + b + "** and *" + i + "* " + ("[" + t + "](" + u + ")"))
         == "<strong>" + b + "</strong> and <em>" + i + "</em> " + Anchor(t, u)
  {
    var link := "[" + t + "](" + u + ")";
    var s0 := "**" + b + "** and *" + i + "* " + link;
    var head1 := "<strong>" + b + "</strong> and ";
    var s1 := head1 + ("*" + i + "*" + (" " + link));
    var head := "<strong>" + b + "</strong> and <em>" + i + "</em> ";
    var s2 := head + link;
    var s3 := head + Anchor(t, u);
    assert Rewrite(Bold, s0) == s1 by {
      ExampleInputShape(b, i, link);
      assert '*' !in " " + link by {
        assert '*' !in "[" && '*' !in "](" && '*' !in ")";
      }
      BoldPass(b, i, " " + link);
      ExampleBoldShape(b, i, link);
    }
    assert Rewrite(Italic, s1) == s2 by {
      assert '*' !in head1 by {
        assert '*' !in "<strong>" && '*' !in "</strong> and ";
      }
      assert '*' !in " " + link by {
        assert '*' !in "[" && '*' !in "](" && '*' !in ")";
      }
      ItalicPass(head1, i, " " + link);
      ExampleItalicShape(b, i, link);
    }
    assert RewriteLinks(s2) == s3 by {
      BracketFree(b, i);
      LinkPass(head, t, u);
    }
    assert Rewrite(Code, Rewrite(Fence, s3)) == s3 by {
      CodeFree(b, i, t, u);
      assert s3 + "" == s3;
      RewritePlain(Fence, s3, "");
      RewritePlain(Code, s3, "");
    }
  }

  lemma BracketFree(b: string, i: string)
    requires '[' !in b && '[' !in i
    ensures '[' !in "<strong>" + b + "</strong> and <em>" + i + "</em> "
  {
    assert '[' !in "<strong>" && '[' !in "</strong> and <em>" && '[' !in "</em> ";
  }

  lemma CodeFree(b: string, i: string, t: string, u: string)
    requires '`' !in b && '`' !in i && '`' !in t && '`' !in u
    ensures '`' !in "<strong>" + b + "</strong> and <em>" + i + "</em> " + Anchor(t, u)
  {
    assert '`' !in "<strong>" && '`' !in "</strong> and <em>" && '`' !in "</em> ";
    assert '`' !in "<a href=\"" && '`' !in "\" target=\"_blank\">" && '`' !in "</a>";
  }

  // ---------------------------------------------------------------- block lines

  /** The blockquote and the two list-item rules on one line. */
  function BlockLine(line: string): string {
    ApplyRule(DashItem, ApplyRule(StarItem, ApplyRule(Quote, line)))
  }

  function BlockLines(s: string): string {
    MapLines(DashItem, MapLines(StarItem, MapLines(Quote, s)))
  }

  lemma BlockLinesLast(line: string)
    requires NoLineTerminator(line)
    ensures BlockLines(line) == BlockLine(line)
  {
    MapLinesLast(Quote, line);
    ApplyRuleKeepsLine(Quote, line);
    MapLinesLast(StarItem, ApplyRule(Quote, line));
    ApplyRuleKeepsLine(StarItem, ApplyRule(Quote, line));
    MapLinesLast(DashItem, ApplyRule(StarItem, ApplyRule(Quote, line)));
  }

  lemma BlockLinesCons(line: string, c: char, rest: string)
    requires NoLineTerminator(line) && IsLineTerminator(c)
    ensures BlockLines(line + [c] + rest) == BlockLine(line) + [c] + BlockLines(rest)
  {
    MapLinesCons(Quote, line, c, rest);
    var l1 := ApplyRule(Quote, line);
    ApplyRuleKeepsLine(Quote, line);
    MapLinesCons(StarItem, l1, c, MapLines(Quote, rest));
    var l2 := ApplyRule(StarItem, l1);
    ApplyRuleKeepsLine(StarItem, l1);
    MapLinesCons(DashItem, l2, c, MapLines(StarItem, MapLines(Quote, rest)));
  }

  /** `> x` becomes a blockquote; `* x` and `- x` each become a list item of their own. */
  lemma BlockLineKinds(x: string, line: string)
    ensures BlockLine("> " + x) == "<blockquote>" + x + "</blockquote>"
    ensures BlockLine("* " + x) == "<li>" + x + "</li>"
    ensures BlockLine("- " + x) == "<li>" + x + "</li>"
    ensures !("> " <= line) && !("* " <= line) && !("- " <= line) ==> BlockLine(line) == line
  {
    assert ("> " + x)[2..] == x;
    NotPrefixAt("* ", "<blockquote>" + x + "</blockquote>", 0);
    NotPrefixAt("- ", "<blockquote>" + x + "</blockquote>", 0);
    assert ("* " + x)[2..] == x;
    NotPrefixAt("> ", "* " + x, 0);
    NotPrefixAt("- ", "<li>" + x + "</li>", 0);
    assert ("- " + x)[2..] == x;
    NotPrefixAt("> ", "- " + x, 0);
    NotPrefixAt("* ", "- " + x, 0);
  }

  // ---------------------------------------------------------------- paragraphs

  /**
   * A blank line closes one paragraph and opens the next, every non-empty line is wrapped in
   * `<p>`, and the empty paragraphs `<p></p>` are dropped.
   */
  function Paragraphs(s: string): string {
    ReplaceAll(MapLines(Para, ReplaceAll(s, "\n\n", "</p><p>")), "<p></p>", "")
  }

  /**
   * Text in which every `<` is followed, inside the text, by something other than `p`: no
   * `<p>` can start in it.
   */
  predicate NoParaOpen(a: string) {
    forall i :: 0 <= i < |a| && a[i] == '<' ==> i + 1 < |a| && a[i + 1] != 'p'
  }

  lemma NoParaOpenConcat(a: string, b: string)
    requires NoParaOpen(a) && NoParaOpen(b)
    ensures NoParaOpen(a + b)
  {
    forall i | 0 <= i < |a + b| && (a + b)[i] == '<'
      ensures i + 1 < |a + b| && (a + b)[i + 1] != 'p'
    {
      if i < |a| {
        assert a[i] == '<';
      } else {
        assert b[i - |a|] == '<';
      }
    }
  }

  /** A tag `<u` whose name does not start with `p`, or text without `<`. */
  lemma NoParaOpenPiece(u: string)
    requires '<' !in u
    ensures NoParaOpen(u)
    ensures |u| > 0 && u[0] != 'p' ==> NoParaOpen("<" + u)
  {
    if |u| > 0 && u[0] != 'p' {
      var t := "<" + u;
      forall i | 0 <= i < |t|
        ensures t[i] == '<' ==> i == 0
      {
        if i > 0 {
          assert t[i] == u[i - 1];
        }
      }
      assert t[1] == u[0];
    }
  }

  /** Such text passes the removal of empty paragraphs unchanged. */
  lemma {:induction false} DropEmptyParasSkips(a: string, b: string)
    requires NoParaOpen(a)
    ensures ReplaceAll(a + b, "<p></p>", "") == a + ReplaceAll(b, "<p></p>", "")
    decreases |a|
  {
    if |a| == 0 {
      assert a + b == b;
    } else {
      var s := a + b;
      var tail := a[1..];
      assert s[0] == a[0] && s[1..] == tail + b;
      if a[0] == '<' {
        assert s[1] == a[1];
      }
      assert !("<p></p>" <= s);
      assert NoParaOpen(tail) by {
        forall i | 0 <= i < |tail| && tail[i] == '<'
          ensures i + 1 < |tail| && tail[i + 1] != 'p'
        {
          assert a[i + 1] == '<';
        }
      }
      DropEmptyParasSkips(tail, b);
      calc {
        ReplaceAll(s, "<p></p>", "");
        [a[0]] + ReplaceAll(tail + b, "<p></p>", "");
        [a[0]] + (tail + ReplaceAll(b, "<p></p>", ""));
        { assert a == [a[0]] + tail; }
        a + ReplaceAll(b, "<p></p>", "");
      }
    }
  }

  // ---------------------------------------------------------------- unwrapping block elements

  /** The three clean-up patterns `<p>(<open>.*<close>)<\/p>`. */
  datatype Block = HeadingBlock | QuoteBlock | PreBlock

  predicate IsLevel(c: char) {
    '1' <= c <= '6'
  }

  function OpenLen(b: Block): nat {
    match b
    case HeadingBlock => 7
    case QuoteBlock => 15
    case PreBlock => 8
  }

  function CloseLen(b: Block): nat {
    match b
    case HeadingBlock => 9
    case QuoteBlock => 17
    case PreBlock => 10
  }

  /** `<p><h[1-6]>`, `<p><blockquote>` or `<p><pre>`. */
  predicate BlockOpen(b: Block, t: string)
    requires |t| == OpenLen(b)
    ensures BlockOpen(b, t) ==> "<p>" <= t
  {
    match b
    case HeadingBlock => t[..5] == "<p><h" && IsLevel(t[5]) && t[6] == '>'
    case QuoteBlock => t == "<p><blockquote>"
    case PreBlock => t == "<p><pre>"
  }

  /** `<\/h[1-6]><\/p>`, `<\/blockquote><\/p>` or `<\/pre><\/p>`. */
  predicate BlockClose(b: Block, t: string)
    requires |t| == CloseLen(b)
  {
    match b
    case HeadingBlock =>
      t[..3] == "</h" && IsLevel(t[3]) && t[4..] == "></p>"
    case QuoteBlock => t == "</blockquote></p>"
    case PreBlock => t == "</pre></p>"
  }

  predicate OpenAt(b: Block, s: string) {
    OpenLen(b) <= |s| && BlockOpen(b, s[..OpenLen(b)])
  }

  predicate CloseAt(b: Block, s: string, e: nat) {
    e + CloseLen(b) <= |s| && BlockClose(b, s[e..e + CloseLen(b)])
  }

  /** A closing tag cannot take in a line terminator. */
  lemma CloseNeedsLine(b: Block, s: string, e: nat, t: nat)
    requires e <= t < e + CloseLen(b) && t < |s| && IsLineTerminator(s[t])
    ensures !CloseAt(b, s, e)
  {
    if e + CloseLen(b) <= |s| {
      assert s[e..e + CloseLen(b)][t - e] == s[t];
    }
  }

  /** The index of the first line terminator at or after `i`, or the length of `s`. */
  function LineEnd(s: string, i: nat): (r: nat)
    requires i <= |s|
    ensures i <= r <= |s|
    decreases |s| - i
  {
    if i == |s| || IsLineTerminator(s[i]) then i else LineEnd(s, i + 1)
  }

  lemma {:induction false} LineEndAt(s: string, i: nat, n: nat)
    requires i <= n <= |s| && NoLineTerminator(s[i..n])
    requires n < |s| ==> IsLineTerminator(s[n])
    ensures LineEnd(s, i) == n
    decreases n - i
  {
    if i < n {
      assert s[i..n][0] == s[i];
      NoLineTerminatorSlice(s[i..n], 1, n - i);
      assert s[i..n][1..n - i] == s[i + 1..n];
      LineEndAt(s, i + 1, n);
    }
  }

  /** The largest `e` in `lo..hi` at which the closing tags of `b` stand. */
  function LastClose(b: Block, s: string, lo: nat, hi: nat): (r: Option<nat>)
    ensures r.Some? ==> lo <= r.value <= hi && CloseAt(b, s, r.value)
    ensures r.Some? ==> forall e: nat :: r.value < e <= hi ==> !CloseAt(b, s, e)
    ensures r.None? ==> forall e: nat :: lo <= e <= hi ==> !CloseAt(b, s, e)
    decreases hi
  {
    if hi < lo then None
    else if CloseAt(b, s, hi) then Some(hi)
    else if hi == lo then None
    else LastClose(b, s, lo, hi - 1)
  }

  lemma {:induction false} LastCloseIs(b: Block, s: string, lo: nat, hi: nat, m: nat)
    requires lo <= m <= hi && CloseAt(b, s, m)
    requires forall e: nat :: m < e <= hi ==> !CloseAt(b, s, e)
    ensures LastClose(b, s, lo, hi) == Some(m)
    decreases hi
  {
    if hi > m {
      LastCloseIs(b, s, lo, hi - 1, m);
    }
  }

  /**
   * Where the pattern of `b` matches at the start of `s`, the index of its closing tags: the
   * greedy `.*` runs to the end of the line and backtracks to the last closing tags on it.
   */
  function UnwrapAt(b: Block, s: string): (r: Option<nat>)
    ensures r.Some? ==> OpenLen(b) <= r.value && r.value + CloseLen(b) <= |s|
  {
    if OpenAt(b, s) then LastClose(b, s, OpenLen(b), LineEnd(s, OpenLen(b))) else None
  }

  /** `s.replace(/<p>(<open>.*<close>)<\/p>/g, '$1')`. */
  function Unwrap(b: Block, s: string): string
    decreases |s|
  {
    if |s| == 0 then ""
    else
      match UnwrapAt(b, s)
      case Some(e) => s[3..e + CloseLen(b) - 4] + Unwrap(b, s[e + CloseLen(b)..])
      case None => [s[0]] + Unwrap(b, s[1..])
  }

  lemma SliceOfPrefix(w: string, rest: string, i: nat, j: nat)
    requires i <= j <= |w|
    ensures (w + rest)[i..j] == w[i..j]
  {
  }

  lemma OpenAtExtends(b: Block, w: string, rest: string)
    requires OpenAt(b, w)
    ensures OpenAt(b, w + rest)
  {
    assert (w + rest)[..OpenLen(b)] == w[..OpenLen(b)];
  }

  lemma CloseAtExtends(b: Block, w: string, rest: string, m: nat)
    requires CloseAt(b, w, m)
    ensures CloseAt(b, w + rest, m)
  {
    assert (w + rest)[m..m + CloseLen(b)] == w[m..m + CloseLen(b)];
  }

  /** On such a line the match closes at the closing tags that end the line. */
  lemma UnwrapAtWrapped(b: Block, w: string, rest: string)
    requires NoLineTerminator(w) && OpenLen(b) + CloseLen(b) <= |w|
    requires OpenAt(b, w) && CloseAt(b, w, |w| - CloseLen(b))
    requires |rest| == 0 || IsLineTerminator(rest[0])
    ensures UnwrapAt(b, w + rest) == Some(|w| - CloseLen(b))
  {
    var s := w + rest;
    var n := |w|;
    var m := n - CloseLen(b);
    OpenAtExtends(b, w, rest);
    CloseAtExtends(b, w, rest, m);
    NoLineTerminatorSlice(w, OpenLen(b), n);
    SliceOfPrefix(w, rest, OpenLen(b), n);
    if n < |s| {
      assert s[n] == rest[0];
    }
    LineEndAt(s, OpenLen(b), n);
    forall e: nat | m < e <= n
      ensures !CloseAt(b, s, e)
    {
      if n < |s| {
        CloseNeedsLine(b, s, e, n);
      }
    }
    LastCloseIs(b, s, OpenLen(b), n, m);
  }

  /**
   * A paragraph that makes up a whole line and wraps the element of `b` loses its `<p>` and
   * `</p>`.
   */
  lemma UnwrapWrapped(b: Block, y: string, rest: string)
    requires NoLineTerminator(y)
    requires OpenAt(b, "<p>" + y + "</p>")
    requires OpenLen(b) + CloseLen(b) <= |y| + 7
    requires CloseAt(b, "<p>" + y + "</p>", |y| + 7 - CloseLen(b))
    requires |rest| == 0 || IsLineTerminator(rest[0])
    ensures Unwrap(b, "<p>" + y + "</p>" + rest) == y + Unwrap(b, rest)
  {
    var w := "<p>" + y + "</p>";
    var s := w + rest;
    var n := |w|;
    calc {
      Unwrap(b, s);
      { ParagraphLine(y); UnwrapAtWrapped(b, w, rest); UnwrapMatch(b, s, n - CloseLen(b)); }
      s[3..n - 4] + Unwrap(b, s[n..]);
      { SliceOfPrefix(w, rest, 3, n - 4); ParagraphInner(y); assert s[n..] == rest; }
      y + Unwrap(b, rest);
    }
  }

  lemma ParagraphLine(y: string)
    requires NoLineTerminator(y)
    ensures NoLineTerminator("<p>" + y + "</p>")
  {
  }

  lemma ParagraphInner(y: string)
    ensures ("<p>" + y + "</p>")[3..|y| + 3] == y
  {
  }

  /** Where the pattern matches, its text between the paragraph tags replaces it. */
  lemma UnwrapMatch(b: Block, s: string, e: nat)
    requires UnwrapAt(b, s) == Some(e)
    ensures Unwrap(b, s) == s[3..e + CloseLen(b) - 4] + Unwrap(b, s[e + CloseLen(b)..])
  {
  }

  /** Text in which no `<p>` can start passes the clean-up of `b` unchanged. */
  lemma {:induction false} UnwrapSkips(b: Block, a: string, rest: string)
    requires NoParaOpen(a)
    ensures Unwrap(b, a + rest) == a + Unwrap(b, rest)
    decreases |a|
  {
    if |a| == 0 {
      assert a + rest == rest;
    } else {
      UnwrapSkipHead(b, a, rest);
      NoParaOpenTail(a);
      UnwrapSkips(b, a[1..], rest);
      ConsJoin(a, Unwrap(b, rest));
    }
  }

  /** The first character of such text is copied. */
  lemma UnwrapSkipHead(b: Block, a: string, rest: string)
    requires NoParaOpen(a) && |a| > 0
    ensures Unwrap(b, a + rest) == [a[0]] + Unwrap(b, a[1..] + rest)
  {
    var s := a + rest;
    ConsParts(a, rest);
    if a[0] == '<' {
      assert s[1] == a[1];
    }
    assert !OpenAt(b, s) by {
      if OpenLen(b) <= |s| {
        assert s[..OpenLen(b)][..3] == s[..3];
      }
    }
  }

  lemma NoParaOpenTail(a: string)
    requires NoParaOpen(a) && |a| > 0
    ensures NoParaOpen(a[1..])
  {
    var tail := a[1..];
    forall i | 0 <= i < |tail| && tail[i] == '<'
      ensures i + 1 < |tail| && tail[i + 1] != 'p'
    {
      assert a[i + 1] == '<';
    }
  }

  /** All three clean-ups, headings first. */
  function UnwrapBlocks(s: string): string {
    Unwrap(PreBlock, Unwrap(QuoteBlock, Unwrap(HeadingBlock, s)))
  }

  // ---------------------------------------------------------------- the whole chain

  /** `convertMarkdownToHtml(markdown)`. */
  function ConvertMarkdownToHtml(markdown: string): string {
    UnwrapBlocks(Paragraphs(BlockLines(Emphasis(Headings(markdown)))))
  }

  // ---------------------------------------------------------------- one-line documents

  /** The letter after `<p><` in the opening tags of `b`. */
  function OpenLetter(b: Block): char {
    match b
    case HeadingBlock => 'h'
    case QuoteBlock => 'b'
    case PreBlock => 'p'
  }

  lemma NotOpenAt(b: Block, s: string)
    requires |s| > 4 && (s[3] != '<' || s[4] != OpenLetter(b))
    ensures !OpenAt(b, s)
  {
    if OpenLen(b) <= |s| {
      assert s[..OpenLen(b)][3] == s[3] && s[..OpenLen(b)][4] == s[4];
    }
  }

  /** The inside of a paragraph, after its `<`, holds no `<p`. */
  lemma NoParaOpenInside(z: string)
    requires NoParaOpen(z)
    ensures NoParaOpen("p>" + z + "</p>")
  {
    NoParaOpenPiece("p>");
    NoParaOpenPiece("/p>");
    NoParaOpenConcat("p>", z);
    NoParaOpenConcat("p>" + z, "</p>");
  }

  /** A paragraph opened by none of the tags of `b` passes its clean-up unchanged. */
  lemma UnwrapOther(b: Block, z: string)
    requires NoParaOpen(z) && |z| > 1 && (z[0] != '<' || z[1] != OpenLetter(b))
    ensures Unwrap(b, "<p>" + z + "</p>") == "<p>" + z + "</p>"
  {
    var w := "<p>" + z + "</p>";
    assert w[3] == z[0] && w[4] == z[1];
    NotOpenAt(b, w);
    assert UnwrapAt(b, w) == None;
    assert w[1..] == "p>" + z + "</p>" + "";
    NoParaOpenInside(z);
    UnwrapSkips(b, "p>" + z + "</p>", "");
    assert Unwrap(b, w) == [w[0]] + Unwrap(b, w[1..]);
  }

  /** A non-empty line that holds no `<p` and opens no closing tag becomes one paragraph. */
  lemma ParagraphsLine(z: string)
    requires |z| > 0 && NoLineTerminator(z) && NoParaOpen(z) && !("</" <= z)
    ensures Paragraphs(z) == "<p>" + z + "</p>"
  {
    var w := "<p>" + z + "</p>";
    var u := "p>" + z + "</p>";
    calc {
      Paragraphs(z);
      { NoBlankLine(z); }
      ReplaceAll(MapLines(Para, z), "<p></p>", "");
      { MapLinesLast(Para, z); }
      ReplaceAll(w, "<p></p>", "");
      { NoEmptyParagraph(z); }
      [w[0]] + ReplaceAll(w[1..], "<p></p>", "");
      { assert w[1..] == u + ""; }
      [w[0]] + ReplaceAll(u + "", "<p></p>", "");
      { NoParaOpenInside(z); DropEmptyParasSkips(u, ""); }
      [w[0]] + (u + "");
      { assert [w[0]] + (u + "") == w; }
      w;
    }
  }

  /** A line holds no blank line for the paragraph rule to replace. */
  lemma NoBlankLine(z: string)
    requires NoLineTerminator(z)
    ensures ReplaceAll(z, "\n\n", "</p><p>") == z
  {
    assert z + "" == z;
    ReplaceAllPlain(z, "", "\n\n", "</p><p>");
  }

  /** The paragraph around a non-empty line that opens no closing tag is not empty. */
  lemma NoEmptyParagraph(z: string)
    requires |z| > 0 && NoParaOpen(z) && !("</" <= z)
    ensures !("<p></p>" <= "<p>" + z + "</p>")
  {
    var w := "<p>" + z + "</p>";
    if z[0] == '<' {
      assert |z| > 1;
      assert w[4] == z[1];
      NotPrefixAt("<p></p>", w, 4);
    } else {
      assert w[3] == z[0];
      NotPrefixAt("<p></p>", w, 3);
    }
  }

  /**
   * A document of one line that the heading rules turn into `h` and the block rules into `z`,
   * with nothing for the inline stage to rewrite: it becomes the paragraph around `z`, then
   * goes through the clean-ups.
   */
  lemma ConvertOneLine(line: string, h: string, z: string)
    requires NoLineTerminator(line) && HeadingLine(line) == h && InlinePlain(h)
    requires BlockLine(h) == z && |z| > 0 && NoParaOpen(z) && !("</" <= z)
    ensures ConvertMarkdownToHtml(line) == UnwrapBlocks("<p>" + z + "</p>")
  {
    HeadingsLast(line);
    ApplyRuleKeepsLine(H3, line);
    ApplyRuleKeepsLine(H2, ApplyRule(H3, line));
    ApplyRuleKeepsLine(H1, ApplyRule(H2, ApplyRule(H3, line)));
    EmphasisPlain(h);
    BlockLinesLast(h);
    ApplyRuleKeepsLine(Quote, h);
    ApplyRuleKeepsLine(StarItem, ApplyRule(Quote, h));
    ApplyRuleKeepsLine(DashItem, ApplyRule(StarItem, ApplyRule(Quote, h)));
    ParagraphsLine(z);
  }

  /** A plain line becomes a paragraph. */
  lemma ConvertPlainLine(x: string)
    requires |x| > 1 && NoLineTerminator(x) && InlinePlain(x) && '<' !in x
    requires x[0] != '#' && x[0] != '>' && x[0] != '-'
    ensures ConvertMarkdownToHtml(x) == "<p>" + x + "</p>"
  {
    NotPrefixAt("# ", x, 0);
    NotPrefixAt("## ", x, 0);
    NotPrefixAt("### ", x, 0);
    HeadingLevels(x, x);
    NotPrefixAt("> ", x, 0);
    NotPrefixAt("* ", x, 0);
    NotPrefixAt("- ", x, 0);
    BlockLineKinds(x, x);
    NoParaOpenPiece(x);
    NotPrefixAt("</", x, 0);
    ConvertOneLine(x, x, x);
    UnwrapOther(HeadingBlock, x);
    UnwrapOther(QuoteBlock, x);
    UnwrapOther(PreBlock, x);
  }

  /** An element around text without `<`, whose tags open no `<p`. */
  lemma NoParaOpenElement(o: string, x: string, c: string)
    requires NoParaOpen(o) && '<' !in x && NoParaOpen(c)
    ensures NoParaOpen(o + x + c)
  {
    NoParaOpenPiece(x);
    NoParaOpenConcat(o, x);
    NoParaOpenConcat(o + x, c);
  }

  /** The tags of the heading rules open no `<p`. */
  lemma HeadingTags(r: LineRule)
    requires r == H1 || r == H2 || r == H3
    ensures NoParaOpen(LineOpen(r)) && NoParaOpen(LineClose(r))
    ensures InlinePlain(LineOpen(r)) && InlinePlain(LineClose(r))
    ensures NoLineTerminator(LineOpen(r)) && NoLineTerminator(LineClose(r))
    ensures |LineOpen(r)| == 4 && LineOpen(r)[..3] == "<h" + [LineOpen(r)[2]] && LineOpen(r)[1] == 'h'
    ensures IsLevel(LineOpen(r)[2]) && LineOpen(r)[3] == '>'
    ensures |LineClose(r)| == 5 && LineClose(r)[..3] == "</h" && IsLevel(LineClose(r)[3])
    ensures LineClose(r)[4..] == ">"
  {
  }

  /** The heading and block rules on a heading line. */
  lemma HeadingLineRules(r: LineRule, x: string)
    requires r == H1 || r == H2 || r == H3
    ensures HeadingLine(Marker(r) + x) == LineOpen(r) + x + LineClose(r)
    ensures BlockLine(LineOpen(r) + x + LineClose(r)) == LineOpen(r) + x + LineClose(r)
  {
    var h := LineOpen(r) + x + LineClose(r);
    HeadingLevels(x, x);
    NotPrefixAt("> ", h, 0);
    NotPrefixAt("* ", h, 0);
    NotPrefixAt("- ", h, 0);
    BlockLineKinds(x, h);
  }

  /** The heading clean-up finds `<p><hN>` and `</hN></p>` around the heading line. */
  lemma HeadingParagraphMatches(r: LineRule, x: string)
    requires r == H1 || r == H2 || r == H3
    ensures var w := "<p>" + (LineOpen(r) + x + LineClose(r)) + "</p>";
      OpenAt(HeadingBlock, w) && CloseAt(HeadingBlock, w, |LineOpen(r) + x + LineClose(r)| + 7 - 9)
  {
    var o := LineOpen(r);
    var c := LineClose(r);
    var h := o + x + c;
    var w := "<p>" + h + "</p>";
    HeadingTags(r);
    assert w[..7] == "<p>" + o;
    assert w[..7][..5] == "<p><h";
    var e := |h| + 7 - 9;
    assert w[e..e + 9] == c + "</p>";
    assert w[e..e + 9][..3] == c[..3];
    assert w[e..e + 9][3] == c[3];
    assert w[e..e + 9][4..] == "></p>";
  }

  /** The clean-ups take the paragraph off a heading line and leave the heading. */
  lemma HeadingCleanups(r: LineRule, x: string)
    requires r == H1 || r == H2 || r == H3
    requires NoLineTerminator(x) && '<' !in x
    ensures UnwrapBlocks("<p>" + (LineOpen(r) + x + LineClose(r)) + "</p>") == LineOpen(r) + x + LineClose(r)
  {
    var h := LineOpen(r) + x + LineClose(r);
    var w := "<p>" + h + "</p>";
    HeadingTags(r);
    NoParaOpenElement(LineOpen(r), x, LineClose(r));
    assert Unwrap(HeadingBlock, w) == h by {
      HeadingParagraphMatches(r, x);
      assert NoLineTerminator(h);
      UnwrapWrapped(HeadingBlock, h, "");
      assert w + "" == w && h + "" == h;
    }
    assert h + "" == h;
    UnwrapSkips(QuoteBlock, h, "");
    UnwrapSkips(PreBlock, h, "");
  }

  /** A heading line loses the paragraph the line rules gave it: `# x` becomes `<h1>x</h1>`. */
  lemma ConvertHeadingLine(r: LineRule, x: string)
    requires r == H1 || r == H2 || r == H3
    requires NoLineTerminator(x) && InlinePlain(x) && '<' !in x
    ensures ConvertMarkdownToHtml(Marker(r) + x) == LineOpen(r) + x + LineClose(r)
  {
    var line := Marker(r) + x;
    var h := LineOpen(r) + x + LineClose(r);
    HeadingLineRules(r, x);
    HeadingLineFacts(r, x);
    ConvertOneLine(line, h, h);
    HeadingCleanups(r, x);
  }

  /** What the one-line conversion needs to know of a heading line. */
  lemma HeadingLineFacts(r: LineRule, x: string)
    requires r == H1 || r == H2 || r == H3
    requires NoLineTerminator(x) && InlinePlain(x) && '<' !in x
    ensures NoLineTerminator(Marker(r) + x)
    ensures var h := LineOpen(r) + x + LineClose(r);
      InlinePlain(h) && |h| > 0 && NoParaOpen(h) && !("</" <= h)
  {
    var h := LineOpen(r) + x + LineClose(r);
    HeadingTags(r);
    assert NoLineTerminator(Marker(r));
    assert InlinePlain(h);
    NoParaOpenElement(LineOpen(r), x, LineClose(r));
    NotPrefixAt("</", h, 1);
  }

  /** The heading and block rules on a quote line. */
  lemma QuoteLineRules(x: string)
    ensures HeadingLine("> " + x) == "> " + x
    ensures BlockLine("> " + x) == "<blockquote>" + x + "</blockquote>"
  {
    var line := "> " + x;
    NotPrefixAt("# ", line, 0);
    NotPrefixAt("## ", line, 0);
    NotPrefixAt("### ", line, 0);
    HeadingLevels(x, line);
    BlockLineKinds(x, x);
  }

  /** The quote clean-up finds `<p><blockquote>` and `</blockquote></p>` around the quote. */
  lemma QuoteParagraphMatches(x: string)
    ensures var w := "<p>" + ("<blockquote>" + x + "</blockquote>") + "</p>";
      OpenAt(QuoteBlock, w) && CloseAt(QuoteBlock, w, |x| + 25 + 7 - 17)
  {
    var q := "<blockquote>" + x + "</blockquote>";
    var w := "<p>" + q + "</p>";
    assert w[..15] == "<p><blockquote>";
    assert w[|q| - 10..|q| + 7] == "</blockquote></p>";
  }

  /** The clean-ups take the paragraph off a quote line and leave the blockquote. */
  lemma QuoteCleanups(x: string)
    requires NoLineTerminator(x) && '<' !in x
    ensures UnwrapBlocks("<p>" + ("<blockquote>" + x + "</blockquote>") + "</p>")
         == "<blockquote>" + x + "</blockquote>"
  {
    var q := "<blockquote>" + x + "</blockquote>";
    var w := "<p>" + q + "</p>";
    QuoteTagFacts(x);
    calc {
      UnwrapBlocks(w);
      Unwrap(PreBlock, Unwrap(QuoteBlock, Unwrap(HeadingBlock, w)));
      { UnwrapOther(HeadingBlock, q); }
      Unwrap(PreBlock, Unwrap(QuoteBlock, w));
      { QuoteUnwrapped(x); }
      Unwrap(PreBlock, q);
      { UnwrapSkips(PreBlock, q, ""); assert q + "" == q; }
      q + Unwrap(PreBlock, "");
      { assert q + "" == q; }
      q;
    }
  }

  lemma QuoteTagFacts(x: string)
    requires NoLineTerminator(x) && '<' !in x
    ensures var q := "<blockquote>" + x + "</blockquote>";
      NoParaOpen(q) && NoLineTerminator(q) && |q| > 1 && q[1] != OpenLetter(HeadingBlock)
  {
    var q := "<blockquote>" + x + "</blockquote>";
    BlockquoteTags();
    RuleTagsOneLine(Quote);
    NoParaOpenElement("<blockquote>", x, "</blockquote>");
    NoLineTerminatorJoin("<blockquote>", x, "</blockquote>");
    assert q[1] == 'b';
  }

  lemma BlockquoteTags()
    ensures NoParaOpen("<blockquote>") && NoParaOpen("</blockquote>")
  {
  }

  /** The quote clean-up takes the paragraph off the blockquote. */
  lemma QuoteUnwrapped(x: string)
    requires NoLineTerminator(x) && '<' !in x
    ensures Unwrap(QuoteBlock, "<p>" + ("<blockquote>" + x + "</blockquote>") + "</p>")
         == "<blockquote>" + x + "</blockquote>"
  {
    var q := "<blockquote>" + x + "</blockquote>";
    var w := "<p>" + q + "</p>";
    QuoteParagraphMatches(x);
    QuoteTagFacts(x);
    UnwrapWrapped(QuoteBlock, q, "");
    assert w + "" == w && q + "" == q;
  }

  /** `> x` becomes a blockquote, without the paragraph around it. */
  lemma ConvertQuoteLine(x: string)
    requires NoLineTerminator(x) && InlinePlain(x) && '<' !in x
    ensures ConvertMarkdownToHtml("> " + x) == "<blockquote>" + x + "</blockquote>"
  {
    var line := "> " + x;
    var q := "<blockquote>" + x + "</blockquote>";
    QuoteLineRules(x);
    QuoteLineFacts(x);
    ConvertOneLine(line, line, q);
    QuoteCleanups(x);
  }

  /** What the one-line conversion needs to know of a quote line. */
  lemma QuoteLineFacts(x: string)
    requires NoLineTerminator(x) && InlinePlain(x) && '<' !in x
    ensures NoLineTerminator("> " + x) && InlinePlain("> " + x)
    ensures var q := "<blockquote>" + x + "</blockquote>"; |q| > 0 && NoParaOpen(q) && !("</" <= q)
  {
    var q := "<blockquote>" + x + "</blockquote>";
    assert NoLineTerminator("> " + x) && InlinePlain("> " + x);
    assert NoParaOpen("<blockquote>") && NoParaOpen("</blockquote>");
    NoParaOpenElement("<blockquote>", x, "</blockquote>");
    NotPrefixAt("</", q, 1);
  }

  /** What the one-line conversion needs to know of a list line. */
  lemma ListLineFacts(x: string)
    requires NoLineTerminator(x) && InlinePlain(x) && '<' !in x
    ensures NoLineTerminator("- " + x) && InlinePlain("- " + x)
    ensures var li := "<li>" + x + "</li>"; |li| > 0 && NoParaOpen(li) && !("</" <= li)
    ensures NoParaOpen(x)
  {
    var li := "<li>" + x + "</li>";
    assert NoLineTerminator("- " + x) && InlinePlain("- " + x);
    assert NoParaOpen("<li>") && NoParaOpen("</li>");
    NoParaOpenElement("<li>", x, "</li>");
    NotPrefixAt("</", li, 1);
    NoParaOpenPiece(x);
  }

  /** The heading and block rules on a list line. */
  lemma ListLineRules(x: string)
    ensures HeadingLine("- " + x) == "- " + x
    ensures BlockLine("- " + x) == "<li>" + x + "</li>"
  {
    var line := "- " + x;
    NotPrefixAt("# ", line, 0);
    NotPrefixAt("## ", line, 0);
    NotPrefixAt("### ", line, 0);
    HeadingLevels(x, line);
    BlockLineKinds(x, x);
  }

  /**
   * `- x` becomes a list item that stays inside a paragraph, `<p><li>x</li></p>`: no list
   * element is opened and no clean-up pattern covers `<li>`.
   */
  lemma ConvertListLine(x: string)
    requires NoLineTerminator(x) && InlinePlain(x) && '<' !in x
    ensures ConvertMarkdownToHtml("- " + x) == "<p>" + ("<li>" + x + "</li>") + "</p>"
  {
    var line := "- " + x;
    var li := "<li>" + x + "</li>";
    ListLineRules(x);
    ListLineFacts(x);
    ConvertOneLine(line, line, li);
    UnwrapOther(HeadingBlock, li);
    UnwrapOther(QuoteBlock, li);
    UnwrapOther(PreBlock, li);
  }
}

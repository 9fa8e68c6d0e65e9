/**
 * The browser post manager of `js/post-manager.js`: it keeps a list of posts in memory, newest
 * first, and turns text pasted from a word processor into a post — an id made from the title
 * and HTML made from the text.
 */
module WordPost {
  import opened Wrappers
  import opened Text
  import opened Inline
  import opened Markdown
  import opened Seqs

  // ---------------------------------------------------------------- post ids

  /** The characters an id keeps: `[a-z0-9-]`. */
  predicate IsIdChar(c: char) {
    'a' <= c <= 'z' || '0' <= c <= '9' || c == '-'
  }

  predicate IdText(s: string) {
    forall i :: 0 <= i < |s| ==> IsIdChar(s[i])
  }

  predicate IdOrSpace(s: string) {
    forall i :: 0 <= i < |s| ==> IsIdChar(s[i]) || IsSpace(s[i])
  }

  /** No two hyphens in a row. */
  predicate NoDoubleHyphen(s: string) {
    forall i :: 0 <= i < |s| - 1 ==> !(s[i] == '-' && s[i + 1] == '-')
  }

  /** `.replace(/[^a-z0-9\s-]/g, '')`: everything but letters, digits, white space and `-` goes. */
  function KeepIdChars(s: string): (t: string)
    ensures |t| <= |s|
    ensures IdOrSpace(t)
  {
    if |s| == 0 then ""
    else (if IsIdChar(s[0]) || IsSpace(s[0]) then [s[0]] else []) + KeepIdChars(s[1..])
  }

  /** `.replace(/\s+/g, '-')`: each run of white space becomes one hyphen. */
  function SpacesToHyphens(s: string): string
    decreases |s|
  {
    if |s| == 0 then ""
    else if IsSpace(s[0]) then "-" + SpacesToHyphens(TrimStart(s[1..]))
    else [s[0]] + SpacesToHyphens(s[1..])
  }

  /** The hyphens at the start of `s` dropped. */
  function DropHyphens(s: string): (t: string)
    ensures |t| <= |s| && t == s[|s| - |t|..]
    ensures forall k :: 0 <= k < |s| - |t| ==> s[k] == '-'
    ensures |t| > 0 ==> t[0] != '-'
  {
    if |s| > 0 && s[0] == '-' then DropHyphens(s[1..]) else s
  }

  /** `.replace(/-+/g, '-')`: each run of hyphens becomes one. */
  function CollapseHyphens(s: string): string
    decreases |s|
  {
    if |s| == 0 then ""
    else if s[0] == '-' then "-" + CollapseHyphens(DropHyphens(s[1..]))
    else [s[0]] + CollapseHyphens(s[1..])
  }

  /** `generatePostId`: lower case, filter, hyphenate, collapse, trim. */
  function GeneratePostId(title: string): string {
    Trim(CollapseHyphens(SpacesToHyphens(KeepIdChars(ToLowerAscii(title)))))
  }

  lemma IdOrSpaceSuffix(s: string, k: nat)
    requires IdOrSpace(s) && k <= |s|
    ensures IdOrSpace(s[k..])
  {
    assert forall i :: 0 <= i < |s| - k ==> s[k..][i] == s[k + i];
  }

  /** White space becomes hyphens and nothing else changes class. */
  lemma {:induction false} SpacesToHyphensIdText(s: string)
    requires IdOrSpace(s)
    ensures IdText(SpacesToHyphens(s))
    decreases |s|
  {
    if |s| > 0 {
      IdOrSpaceSuffix(s, 1);
      if IsSpace(s[0]) {
        var t := TrimStart(s[1..]);
        IdOrSpaceSuffix(s[1..], |s[1..]| - |t|);
        SpacesToHyphensIdText(t);
      } else {
        SpacesToHyphensIdText(s[1..]);
      }
    }
  }

  /** The first character of the collapsed text is a hyphen exactly when the text's is. */
  lemma CollapseHyphensHead(s: string)
    requires |s| > 0
    ensures |CollapseHyphens(s)| > 0 && (CollapseHyphens(s)[0] == '-' <==> s[0] == '-')
  {
  }

  /** Collapsing keeps the id characters. */
  lemma {:induction false} CollapseKeepsIdText(s: string)
    requires IdText(s)
    ensures IdText(CollapseHyphens(s))
    decreases |s|
  {
    if |s| > 0 {
      var u := s[1..];
      IdTextSuffix(s, 1);
      var t := if s[0] == '-' then DropHyphens(u) else u;
      IdTextSuffix(u, |u| - |t|);
      CollapseKeepsIdText(t);
      IdTextCons(s[0], CollapseHyphens(t));
      assert CollapseHyphens(s) == [s[0]] + CollapseHyphens(t);
    }
  }

  lemma IdTextSuffix(s: string, k: nat)
    requires IdText(s) && k <= |s|
    ensures IdText(s[k..])
  {
    assert forall i :: 0 <= i < |s| - k ==> s[k..][i] == s[k + i];
  }

  lemma IdTextCons(c: char, r: string)
    requires IsIdChar(c) && IdText(r)
    ensures IdText([c] + r)
  {
    assert forall i :: 1 <= i < |r| + 1 ==> ([c] + r)[i] == r[i - 1];
  }

  /** Collapsing leaves no two hyphens in a row, whatever the text. */
  lemma {:induction false} CollapseNoDouble(s: string)
    ensures NoDoubleHyphen(CollapseHyphens(s))
    decreases |s|
  {
    if |s| > 0 {
      var t := if s[0] == '-' then DropHyphens(s[1..]) else s[1..];
      CollapseNoDouble(t);
      var r := CollapseHyphens(t);
      var res := [s[0]] + r;
      assert CollapseHyphens(s) == res;
      if |t| > 0 && s[0] == '-' {
        CollapseHyphensHead(t);
      }
      forall i | 0 <= i < |res| - 1
        ensures !(res[i] == '-' && res[i + 1] == '-')
      {
        if i > 0 {
          assert res[i] == r[i - 1] && res[i + 1] == r[i];
        }
      }
    }
  }

  /** Text without white space at its ends is left alone by `trim`. */
  lemma TrimIdText(s: string)
    requires IdText(s)
    ensures Trim(s) == s
  {
    if |s| > 0 {
      assert !IsSpace(s[0]) && !IsSpace(s[|s| - 1]);
    }
  }

  /** An id holds only `a-z`, `0-9` and `-`, never two hyphens in a row. */
  lemma PostIdClean(title: string)
    ensures IdText(GeneratePostId(title)) && NoDoubleHyphen(GeneratePostId(title))
  {
    var k := KeepIdChars(ToLowerAscii(title));
    SpacesToHyphensIdText(k);
    CollapseKeepsIdText(SpacesToHyphens(k));
    CollapseNoDouble(SpacesToHyphens(k));
    TrimIdText(CollapseHyphens(SpacesToHyphens(k)));
  }

  lemma {:induction false} KeepIdCharsKeeps(s: string)
    requires IdText(s)
    ensures KeepIdChars(s) == s
    decreases |s|
  {
    if |s| > 0 {
      KeepIdCharsKeeps(s[1..]);
    }
  }

  lemma {:induction false} SpacesToHyphensKeeps(s: string)
    requires IdText(s)
    ensures SpacesToHyphens(s) == s
    decreases |s|
  {
    if |s| > 0 {
      assert !IsSpace(s[0]);
      SpacesToHyphensKeeps(s[1..]);
    }
  }

  lemma {:induction false} CollapseHyphensKeeps(s: string)
    requires NoDoubleHyphen(s)
    ensures CollapseHyphens(s) == s
    decreases |s|
  {
    if |s| > 0 {
      if s[0] == '-' && |s| > 1 {
        assert s[1] != '-';
        assert DropHyphens(s[1..]) == s[1..];
      }
      CollapseHyphensKeeps(s[1..]);
    }
  }

  /** Making an id of an id changes nothing. */
  lemma PostIdIdempotent(title: string)
    ensures GeneratePostId(GeneratePostId(title)) == GeneratePostId(title)
  {
    var id := GeneratePostId(title);
    PostIdClean(title);
    assert ToLowerAscii(id) == id;
    KeepIdCharsKeeps(id);
    SpacesToHyphensKeeps(id);
    CollapseHyphensKeeps(id);
    TrimIdText(id);
  }

  /**
   * The final `trim` never removes anything, since no white space is left by then: a title
   * that starts with a space gives an id that starts with a hyphen.
   */
  lemma LeadingSpaceHyphen(title: string)
    ensures |GeneratePostId(" " + title)| > 0 && GeneratePostId(" " + title)[0] == '-'
  {
    var h := SpacesToHyphens(KeepIdChars(ToLowerAscii(" " + title)));
    SpaceStartsHyphen(title);
    CollapseHyphensHead(h);
    CollapseKeepsIdText(h);
    TrimIdText(CollapseHyphens(h));
  }

  /** A leading space is still there after the filter, and becomes a hyphen. */
  lemma SpaceStartsHyphen(title: string)
    ensures var h := SpacesToHyphens(KeepIdChars(ToLowerAscii(" " + title)));
      |h| > 0 && h[0] == '-' && IdText(h)
  {
    var lower := ToLowerAscii(" " + title);
    assert lower == " " + ToLowerAscii(title);
    var k := KeepIdChars(lower);
    assert lower[1..] == ToLowerAscii(title);
    assert k == " " + KeepIdChars(ToLowerAscii(title));
    var h := SpacesToHyphens(k);
    assert k[1..] == KeepIdChars(ToLowerAscii(title));
    assert h[0] == '-';
    SpacesToHyphensIdText(k);
  }

  // ---------------------------------------------------------------- Word text

  /** `.replace(/\r\n/g, '\n').replace(/\r/g, '\n').replace(/\t/g, '    ')`. */
  function Normalize(s: string): string {
    ReplaceAll(ReplaceAll(ReplaceAll(s, "\r\n", "\n"), "\r", "\n"), "\t", "    ")
  }

  /** After the first three replaces no carriage return and no tab is left. */
  lemma NormalizeClean(s: string)
    ensures '\r' !in Normalize(s) && '\t' !in Normalize(s)
  {
    var a := ReplaceAll(s, "\r\n", "\n");
    var b := ReplaceAll(a, "\r", "\n");
    ReplaceAllRemovesChar(a, '\r', "\n");
    ReplaceAllKeepsAbsent(b, "\t", "    ", '\r');
    ReplaceAllRemovesChar(b, '\t', "    ");
  }

  /** The index after the run of `u` that starts at `i`. */
  function RunEnd(s: string, i: nat, u: char): (r: nat)
    requires i <= |s|
    ensures i <= r <= |s| && (r == |s| || s[r] != u)
    ensures forall k :: i <= k < r ==> s[k] == u
    decreases |s| - i
  {
    if i < |s| && s[i] == u then RunEnd(s, i + 1, u) else i
  }

  lemma {:induction false} RunEndAt(s: string, i: nat, n: nat, u: char)
    requires i <= n <= |s| && (n == |s| || s[n] != u)
    requires forall k :: i <= k < n ==> s[k] == u
    ensures RunEnd(s, i, u) == n
    decreases n - i
  {
    if i < n {
      RunEndAt(s, i + 1, n, u);
    }
  }

  /** Where a match of `^(.*?)\nu{3,}$` that starts a line ends: its title line, then its rule. */
  datatype RuleMatch = RuleMatch(lineEnd: nat, ruleEnd: nat)

  /**
   * The match at the start of a line: the title runs to the first line end, which must be a
   * `\n`, and the next line must be three or more `u` and nothing else.
   */
  function UnderlineAt(s: string, u: char): (r: Option<RuleMatch>)
    ensures r.Some? ==> r.value.lineEnd < r.value.ruleEnd <= |s|
  {
    var e := LineEnd(s, 0);
    if e < |s| && s[e] == '\n' then
      var f := RunEnd(s, e + 1, u);
      if f - (e + 1) >= 3 && (f == |s| || IsLineTerminator(s[f])) then Some(RuleMatch(e, f)) else None
    else None
  }

  /**
   * `.replace(/^(.*?)\nu{3,}$/gm, o + '$1' + c)` on text that starts at a line start: a line
   * underlined with `u` becomes the line between the two tags, and the scan goes on after the
   * rule's line end; any other line is copied with its line end.
   */
  function Underline(s: string, u: char, o: string, c: string): string
    decreases |s|
  {
    match UnderlineAt(s, u)
    case Some(m) =>
      o + s[..m.lineEnd] + c
      + (if m.ruleEnd == |s| then "" else [s[m.ruleEnd]] + Underline(s[m.ruleEnd + 1..], u, o, c))
    case None =>
      var e := LineEnd(s, 0);
      if e == |s| then s else s[..e + 1] + Underline(s[e + 1..], u, o, c)
  }

  /** A line underlined with three or more `u` becomes a heading. */
  lemma UnderlineTitle(t: string, r: string, u: char, o: string, c: string)
    requires NoLineTerminator(t) && |r| >= 3 && forall i :: 0 <= i < |r| ==> r[i] == u
    ensures Underline(t + "\n" + r, u, o, c) == o + t + c
  {
    var s := t + "\n" + r;
    assert s[..|t|] == t && s[|t|] == '\n';
    assert s[0..|t|] == t;
    LineEndAt(s, 0, |t|);
    RunEndAt(s, |t| + 1, |s|, u);
    assert UnderlineAt(s, u) == Some(RuleMatch(|t|, |s|));
  }

  /** A single line is copied. */
  lemma UnderlinePlain(t: string, u: char, o: string, c: string)
    requires NoLineTerminator(t)
    ensures Underline(t, u, o, c) == t
  {
    assert t[0..|t|] == t;
    LineEndAt(t, 0, |t|);
  }

  /** The heading rewrite adds no character other than those of its tags. */
  lemma {:induction false} UnderlineKeepsAbsent(s: string, u: char, o: string, c: string, ch: char)
    requires ch !in s && ch !in o && ch !in c
    ensures ch !in Underline(s, u, o, c)
    decreases |s|
  {
    match UnderlineAt(s, u)
    case Some(m) =>
      if m.ruleEnd < |s| {
        SliceAbsent(s, m.ruleEnd + 1, |s|, ch);
        UnderlineKeepsAbsent(s[m.ruleEnd + 1..], u, o, c, ch);
      }
      SliceAbsent(s, 0, m.lineEnd, ch);
    case None =>
      var e := LineEnd(s, 0);
      if e < |s| {
        SliceAbsent(s, e + 1, |s|, ch);
        SliceAbsent(s, 0, e + 1, ch);
        UnderlineKeepsAbsent(s[e + 1..], u, o, c, ch);
      }
  }

  /** Bold, italic and links, as in the markdown converter. */
  function WordInline(s: string): string {
    RewriteLinks(Rewrite(Italic, Rewrite(Bold, s)))
  }

  /** Every replace of the chain, up to the split into blocks. */
  function WordStages(s: string): string {
    WordInline(Underline(Underline(Normalize(s), '=', "<h3>", "</h3>"), '-', "<h4>", "</h4>"))
  }

  /** `.map(para => para.trim())`. */
  function TrimAll(parts: seq<string>): (r: seq<string>)
    ensures |r| == |parts| && forall k :: 0 <= k < |r| ==> r[k] == Trim(parts[k])
  {
    seq(|parts|, k requires 0 <= k < |parts| => Trim(parts[k]))
  }

  /** `.filter(para => para.length > 0)`. */
  function NonEmpty(parts: seq<string>): (r: seq<string>)
    ensures |r| <= |parts|
    ensures forall k :: 0 <= k < |r| ==> |r[k]| > 0 && r[k] in parts
    ensures forall k :: 0 <= k < |parts| && |parts[k]| > 0 ==> parts[k] in r
  {
    if |parts| == 0 then []
    else
      var rest := NonEmpty(parts[1..]);
      assert forall k :: 1 <= k < |parts| ==> parts[k] == parts[1..][k - 1];
      (if |parts[0]| > 0 then [parts[0]] else []) + rest
  }

  /** Blocks that already start with a heading or a link stay as they are. */
  predicate Unwrapped(b: string) {
    StartsWith(b, "<h3>") || StartsWith(b, "<h4>") || StartsWith(b, "<a ")
  }

  function WrapBlock(b: string): string {
    if Unwrapped(b) then b else "<p>" + b + "</p>"
  }

  /** The blocks: split on blank lines, trimmed, empty ones dropped, the rest wrapped. */
  function WordBlocks(s: string): (r: seq<string>)
    ensures |r| == |NonEmpty(TrimAll(Split(s, "\n\n")))|
  {
    var parts := NonEmpty(TrimAll(Split(s, "\n\n")));
    seq(|parts|, k requires 0 <= k < |parts| => WrapBlock(parts[k]))
  }

  /** `formatWordContent`. */
  function FormatWordContent(wordContent: string): string {
    Join(WordBlocks(WordStages(wordContent)), "\n\n")
  }

  // ---------------------------------------------------------------- what the formatter promises

  lemma {:induction false} SplitKeepsAbsent(s: string, sep: string, ch: char)
    requires |sep| > 0 && ch !in s
    ensures forall k :: 0 <= k < |Split(s, sep)| ==> ch !in Split(s, sep)[k]
    decreases |s|
  {
    match IndexOf(s, sep)
    case None =>
    case Some(i) =>
      SliceAbsent(s, 0, i, ch);
      SliceAbsent(s, i + |sep|, |s|, ch);
      SplitKeepsAbsent(s[i + |sep|..], sep, ch);
      var rest := Split(s[i + |sep|..], sep);
      assert Split(s, sep) == [s[..i]] + rest;
  }

  lemma {:induction false} JoinKeepsAbsent(parts: seq<string>, sep: string, ch: char)
    requires ch !in sep && forall k :: 0 <= k < |parts| ==> ch !in parts[k]
    ensures ch !in Join(parts, sep)
    decreases |parts|
  {
    if |parts| > 1 {
      JoinKeepsAbsent(parts[1..], sep, ch);
    }
  }

  /** `trim` keeps a piece of its text. */
  lemma TrimSlice(s: string) returns (i: nat)
    ensures i + |Trim(s)| <= |s| && Trim(s) == s[i..i + |Trim(s)|]
  {
    var a := TrimStart(s);
    var t := TrimEnd(a);
    i := |s| - |a|;
    SliceOfSuffix(s, i, |t|);
  }

  lemma WrapKeepsAbsent(b: string, ch: char)
    requires ch !in b && ch !in "<p>" && ch !in "</p>"
    ensures ch !in WrapBlock(b)
  {
  }

  lemma BlocksKeepAbsent(s: string, ch: char)
    requires ch !in s && ch !in "<p>" && ch !in "</p>"
    ensures forall k :: 0 <= k < |WordBlocks(s)| ==> ch !in WordBlocks(s)[k]
  {
    var parts := Split(s, "\n\n");
    SplitKeepsAbsent(s, "\n\n", ch);
    var trimmed := TrimAll(parts);
    forall k | 0 <= k < |trimmed|
      ensures ch !in trimmed[k]
    {
      var i := TrimSlice(parts[k]);
      SliceAbsent(parts[k], i, i + |trimmed[k]|, ch);
    }
    var kept := NonEmpty(trimmed);
    assert forall k :: 0 <= k < |kept| ==> ch !in kept[k];
    forall k | 0 <= k < |kept|
      ensures ch !in WordBlocks(s)[k]
    {
      WrapKeepsAbsent(kept[k], ch);
    }
  }

  /** The formatted text holds no carriage return and no tab. */
  lemma FormatClean(wordContent: string)
    ensures '\r' !in FormatWordContent(wordContent) && '\t' !in FormatWordContent(wordContent)
  {
    NormalizeClean(wordContent);
    TagsFree('\r');
    TagsFree('\t');
    StagesKeepAbsent(wordContent, '\r');
    StagesKeepAbsent(wordContent, '\t');
    var x := WordStages(wordContent);
    BlocksKeepAbsent(x, '\r');
    BlocksKeepAbsent(x, '\t');
    JoinKeepsAbsent(WordBlocks(x), "\n\n", '\r');
    JoinKeepsAbsent(WordBlocks(x), "\n\n", '\t');
  }

  /** Neither a carriage return nor a tab is part of a tag the chain inserts. */
  lemma TagsFree(ch: char)
    requires ch == '\r' || ch == '\t'
    ensures ch !in "<h3>" && ch !in "</h3>" && ch !in "<h4>" && ch !in "</h4>"
    ensures ch !in OpenTag(Bold) && ch !in CloseTag(Bold)
    ensures ch !in OpenTag(Italic) && ch !in CloseTag(Italic)
    ensures ch !in Anchor("", "") && ch !in "<p>" && ch !in "</p>"
  {
  }

  lemma StagesKeepAbsent(wordContent: string, ch: char)
    requires ch == '\r' || ch == '\t'
    requires ch !in Normalize(wordContent)
    ensures ch !in WordStages(wordContent)
  {
    TagsFree(ch);
    var n := Normalize(wordContent);
    UnderlineKeepsAbsent(n, '=', "<h3>", "</h3>", ch);
    var h := Underline(n, '=', "<h3>", "</h3>");
    UnderlineKeepsAbsent(h, '-', "<h4>", "</h4>", ch);
    var g := Underline(h, '-', "<h4>", "</h4>");
    RewriteKeepsAbsent(Bold, g, ch);
    RewriteKeepsAbsent(Italic, Rewrite(Bold, g), ch);
    RewriteLinksKeepsAbsent(Rewrite(Italic, Rewrite(Bold, g)), ch);
  }

  /** Text without the pattern's first character comes through `ReplaceAll` unchanged. */
  lemma ReplaceAllNoHead(s: string, p: string, r: string)
    requires |p| > 0 && p[0] !in s
    ensures ReplaceAll(s, p, r) == s
  {
    ReplaceAllPlain(s, "", p, r);
    assert s + "" == s;
  }

  lemma NormalizePlain(s: string)
    requires '\r' !in s && '\t' !in s
    ensures Normalize(s) == s
  {
    ReplaceAllNoHead(s, "\r\n", "\n");
    ReplaceAllNoHead(s, "\r", "\n");
    ReplaceAllNoHead(s, "\t", "    ");
  }

  lemma RewritePlainAll(k: Pair, s: string)
    requires Delim(k)[0] !in s
    ensures Rewrite(k, s) == s
  {
    RewritePlain(k, s, "");
    assert s + "" == s;
  }

  lemma RewriteLinksPlainAll(s: string)
    requires '[' !in s
    ensures RewriteLinks(s) == s
  {
    RewriteLinksPlain(s, "");
    assert s + "" == s;
  }

  /** A blank line is two line feeds in a row. */
  lemma PairAt(s: string, j: nat)
    requires OccursAt(s, "\n\n", j)
    ensures j + 1 < |s| && s[j] == '\n' && s[j + 1] == '\n'
  {
    assert s[j..j + 2][0] == s[j] && s[j..j + 2][1] == s[j + 1];
  }

  lemma PairFrom(s: string, j: nat)
    requires j + 1 < |s| && s[j] == '\n' && s[j + 1] == '\n'
    ensures OccursAt(s, "\n\n", j)
  {
    assert s[j..j + 2] == "\n\n";
  }

  /** A piece of text without a blank line has none either. */
  lemma NoPairInSlice(s: string, i: nat, n: nat)
    requires i + n <= |s| && !Contains(s, "\n\n")
    ensures !Contains(s[i..i + n], "\n\n")
  {
    var t := s[i..i + n];
    forall j: nat | j <= |t| && OccursAt(t, "\n\n", j)
      ensures false
    {
      PairAt(t, j);
      PairFrom(s, i + j);
    }
  }

  /** The paragraph tags bring in no blank line. */
  lemma WrapNoPair(b: string)
    requires !Contains(b, "\n\n")
    ensures !Contains("<p>" + b + "</p>", "\n\n")
  {
    var w := "<p>" + b + "</p>";
    forall j: nat | j <= |w| && OccursAt(w, "\n\n", j)
      ensures false
    {
      PairAt(w, j);
      assert 3 <= j && j + 1 < 3 + |b|;
      assert w[j] == b[j - 3] && w[j + 1] == b[j - 2];
      PairFrom(b, j - 3);
    }
  }

  /** A block with no blank line that does not end in a line feed is followed by the separator
      and nothing earlier. */
  lemma BlockSepFree(b: string)
    requires |b| > 0 && b[|b| - 1] != '\n' && !Contains(b, "\n\n")
    ensures SepFree(b, "\n\n")
  {
    var e := b + "\n\n";
    forall j: nat | j < |b| && OccursAt(e, "\n\n", j)
      ensures false
    {
      PairAt(e, j);
      if j + 1 < |b| {
        PairFrom(b, j);
      }
    }
  }

  /** A trimmed piece without a blank line, wrapped or not, is a block that keeps apart. */
  lemma WrapShape(b: string)
    requires |b| > 0 && !IsSpace(b[|b| - 1]) && !Contains(b, "\n\n")
    ensures |WrapBlock(b)| > 0 && SepFree(WrapBlock(b), "\n\n")
  {
    if Unwrapped(b) {
      BlockSepFree(b);
    } else {
      WrapNoPair(b);
      var w := "<p>" + b + "</p>";
      assert w[|w| - 1] == '>';
      BlockSepFree(w);
    }
  }

  /** The pieces that survive trimming and filtering hold no blank line and end in a
      non-space. */
  lemma KeptShape(s: string)
    ensures forall k :: 0 <= k < |NonEmpty(TrimAll(Split(s, "\n\n")))| ==>
      var b := NonEmpty(TrimAll(Split(s, "\n\n")))[k];
      |b| > 0 && !IsSpace(b[|b| - 1]) && !Contains(b, "\n\n")
  {
    var parts := Split(s, "\n\n");
    var trimmed := TrimAll(parts);
    forall m | 0 <= m < |trimmed|
      ensures !Contains(trimmed[m], "\n\n")
      ensures |trimmed[m]| > 0 ==> !IsSpace(trimmed[m][|trimmed[m]| - 1])
    {
      TrimmedPiece(parts[m]);
    }
  }

  /** A piece without a blank line, trimmed, has none either and ends in a non-space. */
  lemma TrimmedPiece(p: string)
    requires !Contains(p, "\n\n")
    ensures !Contains(Trim(p), "\n\n")
    ensures |Trim(p)| > 0 ==> !IsSpace(Trim(p)[|Trim(p)| - 1])
  {
    var i := TrimSlice(p);
    NoPairInSlice(p, i, |Trim(p)|);
    TrimmedEnds(p);
  }

  /**
   * Every block of the output is non-empty and cannot run into the blank line that follows it.
   */
  lemma BlocksShape(s: string)
    ensures forall k :: 0 <= k < |WordBlocks(s)| ==>
      |WordBlocks(s)[k]| > 0 && SepFree(WordBlocks(s)[k], "\n\n")
  {
    var kept := NonEmpty(TrimAll(Split(s, "\n\n")));
    KeptShape(s);
    forall k | 0 <= k < |kept|
      ensures |WordBlocks(s)[k]| > 0 && SepFree(WordBlocks(s)[k], "\n\n")
    {
      assert WordBlocks(s)[k] == WrapBlock(kept[k]);
      WrapShape(kept[k]);
    }
  }

  /** Splitting the output on blank lines gives the blocks back. */
  lemma FormatSplits(wordContent: string)
    requires |WordBlocks(WordStages(wordContent))| > 0
    ensures Split(FormatWordContent(wordContent), "\n\n") == WordBlocks(WordStages(wordContent))
  {
    BlocksShape(WordStages(wordContent));
    SplitJoin(WordBlocks(WordStages(wordContent)), "\n\n");
  }

  lemma TrimPlain(s: string)
    requires |s| > 0 && !IsSpace(s[0]) && !IsSpace(s[|s| - 1])
    ensures Trim(s) == s
  {
  }

  lemma SplitWhole(s: string)
    requires NoLineTerminator(s)
    ensures Split(s, "\n\n") == [s]
  {
    forall j: nat | OccursAt(s, "\n\n", j)
      ensures false
    {
      PairAt(s, j);
    }
  }

  /** One line with no markup goes through the rewrites untouched. */
  lemma InlineUntouched(h: string)
    requires NoLineTerminator(h) && '*' !in h && '[' !in h
    ensures WordInline(Underline(h, '-', "<h4>", "</h4>")) == h
  {
    UnderlinePlain(h, '-', "<h4>", "</h4>");
    RewritePlainAll(Bold, h);
    RewritePlainAll(Italic, h);
    RewriteLinksPlainAll(h);
  }

  /** One line with no white space at its ends is a single block. */
  lemma OneBlock(h: string)
    requires |h| > 0 && NoLineTerminator(h) && !IsSpace(h[0]) && !IsSpace(h[|h| - 1])
    ensures Join(WordBlocks(h), "\n\n") == WrapBlock(h)
  {
    SplitWhole(h);
    TrimPlain(h);
    assert TrimAll([h]) == [h];
    assert NonEmpty([h]) == [h];
  }

  /** One line of plain text becomes one paragraph. */
  lemma FormatParagraph(t: string)
    requires |t| > 0 && NoLineTerminator(t) && '\t' !in t && '*' !in t && '[' !in t
    requires !IsSpace(t[0]) && !IsSpace(t[|t| - 1]) && t[0] != '<'
    ensures FormatWordContent(t) == "<p>" + t + "</p>"
  {
    NormalizePlain(t);
    UnderlinePlain(t, '=', "<h3>", "</h3>");
    InlineUntouched(t);
    OneBlock(t);
    assert !Unwrapped(t);
  }

  lemma NormalizeHeading(t: string)
    requires NoLineTerminator(t) && '\t' !in t
    ensures Normalize(t + "\n===") == t + "\n" + "==="
  {
    var s := t + "\n===";
    assert '\r' !in s && '\t' !in s;
    NormalizePlain(s);
  }

  lemma TagLine(o: string, t: string, c: string, ch: char)
    requires ch !in o && ch !in t && ch !in c
    ensures ch !in o + t + c
  {
  }

  /** The rewrites turn a plain line underlined with `===` into a third-level heading. */
  lemma HeadingStages(t: string)
    requires NoLineTerminator(t) && '\t' !in t && '*' !in t && '[' !in t
    ensures WordStages(t + "\n===") == "<h3>" + t + "</h3>"
  {
    NormalizeHeading(t);
    UnderlineTitle(t, "===", '=', "<h3>", "</h3>");
    var h := "<h3>" + t + "</h3>";
    TagLine("<h3>", t, "</h3>", '\n');
    TagLine("<h3>", t, "</h3>", '\r');
    TagLine("<h3>", t, "</h3>", '\U{2028}');
    TagLine("<h3>", t, "</h3>", '\U{2029}');
    TagLine("<h3>", t, "</h3>", '*');
    TagLine("<h3>", t, "</h3>", '[');
    InlineUntouched(h);
  }

  lemma HeadingUnwrapped(t: string)
    ensures WrapBlock("<h3>" + t + "</h3>") == "<h3>" + t + "</h3>"
  {
    var h := "<h3>" + t + "</h3>";
    assert h[..4] == "<h3>";
  }

  /** A line underlined with `===` becomes a third-level heading, left unwrapped. */
  lemma FormatHeading(t: string)
    requires NoLineTerminator(t) && '\t' !in t && '*' !in t && '[' !in t
    ensures FormatWordContent(t + "\n===") == "<h3>" + t + "</h3>"
  {
    var h := "<h3>" + t + "</h3>";
    calc {
      FormatWordContent(t + "\n===");
      Join(WordBlocks(WordStages(t + "\n===")), "\n\n");
      { HeadingStages(t); }
      Join(WordBlocks(h), "\n\n");
      { HeadingTextFacts(t); OneBlock(h); }
      WrapBlock(h);
      { HeadingUnwrapped(t); }
      h;
    }
  }

  lemma HeadingTextFacts(t: string)
    requires NoLineTerminator(t)
    ensures var h := "<h3>" + t + "</h3>";
      |h| > 0 && NoLineTerminator(h) && !IsSpace(h[0]) && !IsSpace(h[|h| - 1])
  {
    var h := "<h3>" + t + "</h3>";
    assert NoLineTerminator(h) && h[0] == '<' && h[|h| - 1] == '>';
  }

  // ---------------------------------------------------------------- the post list

  /**
   * A post's `date`: a `Date` object (its instant written in ISO form), a string, or nothing.
   * Only a `Date` has `toLocaleDateString`.
   */
  datatype DateValue = DateObject(iso: string) | DateString(text: string) | NoDate

  /** JavaScript truthiness of a date value: a `Date` always, a string when it is not empty. */
  predicate Truthy(v: DateValue) {
    v.DateObject? || (v.DateString? && v.text != "")
  }

  /** A post as the manager keeps it; `date` is what the caller gave, or the clock's reading. */
  datatype Post = Post(
    id: string, title: string, content: string, date: DateValue, category: string,
    externalLink: Option<string>, readMoreLink: Option<string>)

  /** The options object; `None` and `NoDate` are keys left out. */
  datatype WordOptions = WordOptions(
    date: DateValue, category: Option<string>,
    externalLink: Option<string>, readMoreLink: Option<string>)

  /** `value || fallback` for a string option: a missing or empty value falls back. */
  function OrElse(value: Option<string>, fallback: string): (r: string)
    ensures r == fallback || (value.Some? && r == value.value && r != "")
    ensures value.Some? && value.value != "" ==> r == value.value
  {
    if value.Some? && value.value != "" then value.value else fallback
  }

  /** `value || null`. */
  function OrNull(value: Option<string>): (r: Option<string>)
    ensures r.Some? <==> value.Some? && value.value != ""
    ensures r.Some? ==> r == value
  {
    if value.Some? && value.value != "" then value else None
  }

  /** The post `addPostFromWord` builds; `now` is the ISO form of `new Date()`. */
  function MakePost(title: string, wordContent: string, options: WordOptions, now: string): (r: Post)
    ensures r.title == title && r.content == FormatWordContent(wordContent)
    ensures r.id == GeneratePostId(title) && IdText(r.id) && NoDoubleHyphen(r.id)
    ensures '\r' !in r.content && '\t' !in r.content
    ensures r.category != ""
    ensures Truthy(r.date)
    ensures Truthy(options.date) ==> r.date == options.date
    ensures !Truthy(options.date) ==> r.date == DateObject(now)
    ensures r.externalLink == OrNull(options.externalLink)
    ensures r.readMoreLink == OrNull(options.readMoreLink)
  {
    PostIdClean(title);
    FormatClean(wordContent);
    Post(GeneratePostId(title), title, FormatWordContent(wordContent),
         if Truthy(options.date) then options.date else DateObject(now),
         OrElse(options.category, "general"), OrNull(options.externalLink), OrNull(options.readMoreLink))
  }

  /** `{...options, externalLink: link, readMoreLink: link}`. */
  function ExternalOptions(options: WordOptions, link: string): (r: WordOptions)
    ensures r.date == options.date && r.category == options.category
    ensures r.externalLink == Some(link) && r.readMoreLink == Some(link)
  {
    options.(externalLink := Some(link), readMoreLink := Some(link))
  }

  /** An external post links out twice to the same place, or not at all when the link is empty. */
  lemma ExternalLinks(title: string, description: string, link: string, options: WordOptions, now: string)
    ensures var p := MakePost(title, description, ExternalOptions(options, link), now);
      p.externalLink == p.readMoreLink
      && (p.externalLink.Some? <==> link != "")
      && (link != "" ==> p.externalLink == Some(link))
  {
  }

  // ---------------------------------------------------------------- rendering and JSON

  /** `generatePostHTML` runs through for a post whose date is a `Date`, and throws otherwise. */
  predicate Renders(p: Post) {
    p.date.DateObject?
  }

  predicate AllRender(posts: seq<Post>) {
    forall i :: 0 <= i < |posts| ==> Renders(posts[i])
  }

  /** A list with a post put in front renders iff the post and the rest do. */
  lemma PrependRenders(p: Post, posts: seq<Post>)
    ensures AllRender([p] + posts) <==> Renders(p) && AllRender(posts)
  {
    if Renders(p) && AllRender(posts) {
      forall i | 0 <= i < |posts| + 1
        ensures Renders(([p] + posts)[i])
      {
        if i > 0 {
          assert ([p] + posts)[i] == posts[i - 1];
        }
      }
    }
    if AllRender([p] + posts) {
      assert ([p] + posts)[0] == p;
      forall i | 0 <= i < |posts|
        ensures Renders(posts[i])
      {
        assert ([p] + posts)[i + 1] == posts[i];
      }
    }
  }

  /** A post built by the manager renders unless the caller gave its date as a non-empty string. */
  lemma MadePostRenders(title: string, wordContent: string, options: WordOptions, now: string)
    ensures Renders(MakePost(title, wordContent, options, now))
      <==> !(options.date.DateString? && options.date.text != "")
  {
  }

  /** A post as `JSON.parse` gives it back: the date is a string, or missing. */
  datatype JsonPost = JsonPost(
    id: string, title: string, content: string, date: Option<string>, category: string,
    externalLink: Option<string>, readMoreLink: Option<string>)

  /** What `JSON.parse` gives: an error for text that is not JSON, a value that is not an array, or a list of posts. */
  datatype Json = NotJson | NotAList | PostList(items: seq<JsonPost>)

  /** `JSON.stringify` of one post: a `Date` is written as its ISO string, a missing date is left out. */
  function ToJson(p: Post): (j: JsonPost)
    ensures j.date.Some? <==> !p.date.NoDate?
  {
    JsonPost(p.id, p.title, p.content,
             match p.date
             case DateObject(iso) => Some(iso)
             case DateString(text) => Some(text)
             case NoDate => None,
             p.category, p.externalLink, p.readMoreLink)
  }

  /** `exportPosts` on a list of posts, as the JSON value it writes. */
  function Export(posts: seq<Post>): (items: seq<JsonPost>)
    ensures |items| == |posts| && forall i :: 0 <= i < |posts| ==> items[i] == ToJson(posts[i])
  {
    seq(|posts|, i requires 0 <= i < |posts| => ToJson(posts[i]))
  }

  /** One parsed post as `importPosts` stores it: its date stays a string. */
  function FromJson(j: JsonPost): (p: Post)
    ensures !Renders(p)
  {
    Post(j.id, j.title, j.content, if j.date.Some? then DateString(j.date.value) else NoDate,
         j.category, j.externalLink, j.readMoreLink)
  }

  function Parsed(items: seq<JsonPost>): (posts: seq<Post>)
    ensures |posts| == |items| && forall i :: 0 <= i < |items| ==> posts[i] == FromJson(items[i])
  {
    seq(|items|, i requires 0 <= i < |items| => FromJson(items[i]))
  }

  /** A parsed list renders only when it is empty: JSON has no `Date`. */
  lemma ParsedRenders(items: seq<JsonPost>)
    ensures AllRender(Parsed(items)) <==> items == []
  {
    if items != [] {
      assert !Renders(Parsed(items)[0]);
    }
  }

  /** Exporting a non-empty list and importing it back leaves posts that cannot be rendered. */
  lemma ExportImportThrows(posts: seq<Post>)
    requires |posts| > 0
    ensures !AllRender(Parsed(Export(posts)))
  {
    ParsedRenders(Export(posts));
  }

  /** One parsed post with its date made a `Date` again, `new Date(post.date)`. */
  function Revive(j: JsonPost): (p: Post)
    ensures Renders(p) <==> j.date.Some?
  {
    Post(j.id, j.title, j.content, if j.date.Some? then DateObject(j.date.value) else NoDate,
         j.category, j.externalLink, j.readMoreLink)
  }

  function Revived(items: seq<JsonPost>): (posts: seq<Post>)
    ensures |posts| == |items| && forall i :: 0 <= i < |items| ==> posts[i] == Revive(items[i])
  {
    seq(|items|, i requires 0 <= i < |items| => Revive(items[i]))
  }

  /** With dates revived, a list of renderable posts comes back from its export unchanged. */
  lemma ExportRevivedRoundTrip(posts: seq<Post>)
    requires AllRender(posts)
    ensures Revived(Export(posts)) == posts
    ensures AllRender(Revived(Export(posts)))
  {
    var back := Revived(Export(posts));
    forall i | 0 <= i < |posts|
      ensures back[i] == posts[i]
    {
      assert Renders(posts[i]);
    }
  }

  // ---------------------------------------------------------------- the post list

  /** What `this.posts` holds: a list, or a JSON value other than an array that an import left. */
  datatype PostsValue = PostArray(items: seq<Post>) | NotArray

  /**
   * The in-memory post list of the browser page. Writing the rendered posts into the page and
   * reporting to analytics are left out; whether rendering throws is kept.
   */
  class PostManager {
    var posts: PostsValue

    constructor()
      ensures posts == PostArray([])
    {
      posts := PostArray([]);
    }

    /**
     * `updateWebsite`: each post is rendered in order, and the first one whose date is not a
     * `Date` throws; a value that is not an array has no `map` and throws at once.
     */
    method UpdateWebsite() returns (ok: bool)
      ensures ok <==> posts.PostArray? && AllRender(posts.items)
    {
      if posts.NotArray? {
        return false;
      }
      var items := posts.items;
      var i := 0;
      while i < |items|
        invariant 0 <= i <= |items|
        invariant forall k :: 0 <= k < i ==> Renders(items[k])
      {
        if !Renders(items[i]) {
          return false;
        }
        i := i + 1;
      }
      ok := true;
    }

    /**
     * `addPostFromWord`: builds the post, puts it at the front of the list and re-renders. `ok`
     * is false where the call throws: the list has already changed unless it was no array, whose
     * `unshift` throws first.
     */
    method AddPostFromWord(title: string, wordContent: string, options: WordOptions, now: string)
      returns (post: Post, ok: bool)
      modifies this
      ensures post == MakePost(title, wordContent, options, now)
      ensures old(posts).PostArray? ==>
        posts == PostArray([post] + old(posts).items)
        && (ok <==> Renders(post) && AllRender(old(posts).items))
      ensures old(posts).NotArray? ==> posts == old(posts) && !ok
    {
      post := MakePost(title, wordContent, options, now);
      if posts.NotArray? {
        return post, false;
      }
      var items := posts.items;
      PrependRenders(post, items);
      posts := PostArray([post] + items);
      ok := UpdateWebsite();
    }

    /** `quickAdd`: the same as `addPostFromWord`. */
    method QuickAdd(title: string, content: string, options: WordOptions, now: string)
      returns (post: Post, ok: bool)
      modifies this
      ensures post == MakePost(title, content, options, now)
      ensures old(posts).PostArray? ==>
        posts == PostArray([post] + old(posts).items)
        && (ok <==> Renders(post) && AllRender(old(posts).items))
      ensures old(posts).NotArray? ==> posts == old(posts) && !ok
    {
      post, ok := AddPostFromWord(title, content, options, now);
    }

    /** `addExternalPost`: a post whose two links are both the external link. */
    method AddExternalPost(title: string, description: string, link: string, options: WordOptions, now: string)
      returns (post: Post, ok: bool)
      modifies this
      ensures post == MakePost(title, description, ExternalOptions(options, link), now)
      ensures old(posts).PostArray? ==>
        posts == PostArray([post] + old(posts).items)
        && (ok <==> Renders(post) && AllRender(old(posts).items))
      ensures old(posts).NotArray? ==> posts == old(posts) && !ok
    {
      post, ok := AddPostFromWord(title, description, ExternalOptions(options, link), now);
    }

    /** `getAllPosts`. */
    method GetAllPosts() returns (r: PostsValue)
      ensures r == posts
    {
      r := posts;
    }

    /** `exportPosts`, as the JSON value it writes; the text and its indentation are left out. */
    method ExportPosts() returns (data: Json)
      ensures posts.PostArray? ==> data == PostList(Export(posts.items))
      ensures posts.NotArray? ==> data == NotAList
    {
      if posts.NotArray? {
        return NotAList;
      }
      data := PostList(Export(posts.items));
    }

    /**
     * `importPosts` as written: text that is not JSON throws before anything changes; any
     * parsed value replaces the list, and the re-rendering then throws unless it is an empty
     * array, because JSON gives back no `Date`.
     */
    method ImportPosts(parsed: Json) returns (ok: bool)
      modifies this
      ensures parsed.NotJson? ==> posts == old(posts) && !ok
      ensures parsed.NotAList? ==> posts == NotArray && !ok
      ensures parsed.PostList? ==> posts == PostArray(Parsed(parsed.items)) && (ok <==> parsed.items == [])
    {
      if parsed.NotJson? {
        return false;
      }
      posts := if parsed.PostList? then PostArray(Parsed(parsed.items)) else NotArray;
      ok := UpdateWebsite();
      if parsed.PostList? {
        ParsedRenders(parsed.items);
      }
    }

    /**
     * `importPosts` as intended: only a parsed array replaces the list, with every date made a
     * `Date` again, so the output of `exportPosts` imports back whole and renders.
     */
    method ImportPostsRevived(parsed: Json) returns (ok: bool)
      modifies this
      ensures parsed.PostList? ==>
        posts == PostArray(Revived(parsed.items))
        && (ok <==> forall i :: 0 <= i < |parsed.items| ==> parsed.items[i].date.Some?)
      ensures !parsed.PostList? ==> posts == old(posts) && !ok
    {
      if !parsed.PostList? {
        return false;
      }
      posts := PostArray(Revived(parsed.items));
      ok := UpdateWebsite();
    }
  }
}

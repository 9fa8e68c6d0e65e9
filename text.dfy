/**
 * The JavaScript string operations the site's functions are built from, on `seq<char>`:
 * `startsWith`, `endsWith`, `indexOf`, `lastIndexOf`, `split`, `join`, `trim`,
 * `replace` with a literal pattern (first occurrence) and a global literal pattern (every
 * occurrence, left to right, without overlap), and ASCII `toLowerCase`.
 */
module Text {
  import opened Wrappers
  import opened Seqs

  /** The characters that end a line for `.`, `^` and `$` in a JavaScript regular expression. */
  predicate IsLineTerminator(c: char) {
    c == '\n' || c == '\r' || c == '\U{2028}' || c == '\U{2029}'
  }

  /** JavaScript white space and line terminators: the class `\s`, and what `trim` removes. */
  predicate IsSpace(c: char) {
    || c == '\t' || c == '\U{000B}' || c == '\U{000C}' || c == ' ' || c == '\U{00A0}'
    || c == '\U{1680}' || ('\U{2000}' <= c <= '\U{200A}') || c == '\U{202F}' || c == '\U{205F}'
    || c == '\U{3000}' || c == '\U{FEFF}' || IsLineTerminator(c)
  }

  predicate NoLineTerminator(s: string) {
    '\n' !in s && '\r' !in s && '\U{2028}' !in s && '\U{2029}' !in s
  }

  predicate StartsWith(s: string, p: string) {
    p <= s
  }

  predicate EndsWith(s: string, p: string) {
    |p| <= |s| && s[|s| - |p|..] == p
  }

  /** `p` occurs in `s` at index `i`. */
  predicate OccursAt(s: string, p: string, i: nat) {
    i + |p| <= |s| && s[i..i + |p|] == p
  }

  predicate Contains(s: string, p: string) {
    exists i: nat | i <= |s| :: OccursAt(s, p, i)
  }

  /** `s.indexOf(p)`: the first index at which `p` occurs, if any. */
  function IndexOf(s: string, p: string): (r: Option<nat>)
    ensures r.Some? ==> OccursAt(s, p, r.value)
    ensures r.Some? ==> forall j: nat :: j < r.value ==> !OccursAt(s, p, j)
    ensures r.None? ==> forall j: nat :: !OccursAt(s, p, j)
    decreases |s|
  {
    if p <= s then Some(0)
    else if |s| == 0 then None
    else
      var rest := IndexOf(s[1..], p);
      OccursShift(s, p);
      match rest
      case Some(i) => Some(i + 1)
      case None => None
  }

  /** An occurrence carries over to equal texts and patterns. */
  lemma OccursSame(s: string, t: string, p: string, q: string, o: nat)
    requires OccursAt(s, p, o) && s == t && p == q
    ensures OccursAt(t, q, o)
  {
  }

  /** `s.lastIndexOf(c)` for one character: the last index holding `c`, or -1. */
  function LastIndexOf(s: string, c: char): (r: int)
    ensures -1 <= r < |s|
    ensures r >= 0 ==> s[r] == c
    ensures forall j :: r < j < |s| ==> s[j] != c
  {
    if |s| == 0 then -1
    else if s[|s| - 1] == c then |s| - 1
    else LastIndexOf(s[..|s| - 1], c)
  }

  /** An occurrence in `s[1..]` is an occurrence in `s` one place later. */
  lemma OccursShift(s: string, p: string)
    requires |s| > 0
    ensures forall j: nat :: OccursAt(s[1..], p, j) <==> OccursAt(s, p, j + 1)
    ensures forall j: nat :: 0 < j ==> (OccursAt(s, p, j) <==> OccursAt(s[1..], p, j - 1))
    ensures OccursAt(s, p, 0) <==> p <= s
  {
    forall j: nat
      ensures OccursAt(s[1..], p, j) <==> OccursAt(s, p, j + 1)
    {
      if j + 1 + |p| <= |s| {
        assert s[1..][j..j + |p|] == s[j + 1..j + 1 + |p|];
      }
    }
  }

  /** A piece of `s` before the first occurrence of `p` holds no occurrence of `p`. */
  lemma PrefixBeforeFirst(s: string, p: string, i: nat)
    requires |p| > 0 && i <= |s|
    requires forall j: nat :: j < i ==> !OccursAt(s, p, j)
    ensures !Contains(s[..i], p)
  {
    forall j: nat | OccursAt(s[..i], p, j)
      ensures false
    {
      assert s[..i][j..j + |p|] == s[j..j + |p|];
      assert OccursAt(s, p, j);
    }
  }

  /** `s.split(sep)` for a non-empty separator. */
  function Split(s: string, sep: string): (parts: seq<string>)
    requires |sep| > 0
    ensures |parts| > 0
    ensures forall k :: 0 <= k < |parts| ==> !Contains(parts[k], sep)
    decreases |s|
  {
    match IndexOf(s, sep)
    case None =>
      assert !Contains(s, sep);
      [s]
    case Some(i) =>
      PrefixBeforeFirst(s, sep, i);
      [s[..i]] + Split(s[i + |sep|..], sep)
  }

  /** `parts.join(sep)`. */
  function Join(parts: seq<string>, sep: string): string {
    if |parts| == 0 then ""
    else if |parts| == 1 then parts[0]
    else parts[0] + sep + Join(parts[1..], sep)
  }

  /** Joining two non-empty lists is joining each and putting the separator between. */
  lemma {:induction false} JoinConcat(a: seq<string>, b: seq<string>, sep: string)
    requires |a| > 0 && |b| > 0
    ensures Join(a + b, sep) == Join(a, sep) + sep + Join(b, sep)
    decreases |a|
  {
    if |a| == 1 {
      assert (a + b)[1..] == b;
    } else {
      assert (a + b)[1..] == a[1..] + b;
      JoinConcat(a[1..], b, sep);
    }
  }

  /** Where the part `i` starts in the joined text: every earlier part and its separator. */
  function JoinOffset(parts: seq<string>, sep: string, i: nat): nat
    requires i <= |parts|
  {
    if i == 0 then 0 else JoinOffset(parts, sep, i - 1) + |parts[i - 1]| + |sep|
  }

  lemma {:induction false} JoinOffsetTail(parts: seq<string>, sep: string, i: nat)
    requires 0 < i <= |parts|
    ensures JoinOffset(parts, sep, i) == |parts[0]| + |sep| + JoinOffset(parts[1..], sep, i - 1)
  {
    if i > 1 {
      JoinOffsetTail(parts, sep, i - 1);
    }
  }

  /** Later parts start after earlier ones end. */
  lemma {:induction false} JoinOffsetOrdered(parts: seq<string>, sep: string, i: nat, j: nat)
    requires i < j <= |parts|
    ensures JoinOffset(parts, sep, i) + |parts[i]| + |sep| <= JoinOffset(parts, sep, j)
    decreases j - i
  {
    if j > i + 1 {
      JoinOffsetOrdered(parts, sep, i, j - 1);
    }
  }

  /** Each part of a join stands in the joined text at its offset. */
  lemma {:induction false} JoinPart(parts: seq<string>, sep: string, i: nat)
    requires i < |parts|
    ensures OccursAt(Join(parts, sep), parts[i], JoinOffset(parts, sep, i))
    decreases |parts|
  {
    if i == 0 {
      JoinPartFirst(parts, sep);
    } else {
      JoinPart(parts[1..], sep, i - 1);
      JoinPartLater(parts, sep, i);
    }
  }

  lemma JoinPartFirst(parts: seq<string>, sep: string)
    requires |parts| > 0
    ensures OccursAt(Join(parts, sep), parts[0], 0)
  {
    var s := Join(parts, sep);
    if |parts| > 1 {
      assert s == parts[0] + (sep + Join(parts[1..], sep));
    }
    assert s[0..|parts[0]|] == parts[0];
  }

  lemma JoinPartLater(parts: seq<string>, sep: string, i: nat)
    requires 0 < i < |parts|
    requires OccursAt(Join(parts[1..], sep), parts[1..][i - 1], JoinOffset(parts[1..], sep, i - 1))
    ensures OccursAt(Join(parts, sep), parts[i], JoinOffset(parts, sep, i))
  {
    var tail := Join(parts[1..], sep);
    assert Join(parts, sep) == (parts[0] + sep) + tail;
    JoinOffsetTail(parts, sep, i);
    var o := JoinOffset(parts[1..], sep, i - 1);
    assert parts[1..][i - 1] == parts[i];
    SliceAfter(parts[0] + sep, tail, o, o + |parts[i]|);
  }

  /** Splitting and joining again with the same separator gives back the text. */
  lemma {:induction false} JoinSplit(s: string, sep: string)
    requires |sep| > 0
    ensures Join(Split(s, sep), sep) == s
    decreases |s|
  {
    match IndexOf(s, sep)
    case None =>
    case Some(i) =>
      var rest := s[i + |sep|..];
      JoinSplit(rest, sep);
      assert Split(s, sep) == [s[..i]] + Split(rest, sep);
      assert s == s[..i] + sep + rest;
  }

  /** `e` followed by `sep` holds its first occurrence of `sep` right after `e`. */
  predicate SepFree(e: string, sep: string) {
    forall j: nat :: j < |e| ==> !OccursAt(e + sep, sep, j)
  }

  lemma SepFreeNotContains(e: string, sep: string)
    requires |sep| > 0 && SepFree(e, sep)
    ensures forall j: nat :: !OccursAt(e, sep, j)
    ensures !Contains(e, sep)
  {
    forall j: nat | OccursAt(e, sep, j)
      ensures false
    {
      assert (e + sep)[j..j + |sep|] == e[j..j + |sep|];
      assert OccursAt(e + sep, sep, j);
    }
  }

  /**
   * Joining pieces that are free of the separator and splitting the result gives back the
   * pieces.
   */
  lemma {:induction false} SplitJoin(parts: seq<string>, sep: string)
    requires |sep| > 0 && |parts| > 0
    requires forall k :: 0 <= k < |parts| ==> SepFree(parts[k], sep)
    ensures Split(Join(parts, sep), sep) == parts
  {
    if |parts| == 1 {
      SepFreeNotContains(parts[0], sep);
    } else {
      var e := parts[0];
      var rest := Join(parts[1..], sep);
      var s := e + sep + rest;
      assert Join(parts, sep) == s;
      assert OccursAt(s, sep, |e|) by {
        assert s[|e|..|e| + |sep|] == sep;
      }
      forall j: nat | j < |e|
        ensures !OccursAt(s, sep, j)
      {
        assert !OccursAt(e + sep, sep, j);
      }
      var r := IndexOf(s, sep);
      assert r == Some(|e|);
      assert s[..|e|] == e;
      assert s[|e| + |sep|..] == rest;
      SplitJoin(parts[1..], sep);
      assert parts == [e] + parts[1..];
    }
  }

  /** `s.replace(/p/g, r)` for a literal pattern `p`: every occurrence, left to right. */
  function ReplaceAll(s: string, p: string, r: string): string
    requires |p| > 0
    decreases |s|
  {
    if |s| == 0 then ""
    else if p <= s then r + ReplaceAll(s[|p|..], p, r)
    else [s[0]] + ReplaceAll(s[1..], p, r)
  }

  /** A pattern that does not occur leaves the text unchanged. */
  lemma {:induction false} ReplaceAllAbsent(s: string, p: string, r: string)
    requires |p| > 0 && !Contains(s, p)
    ensures ReplaceAll(s, p, r) == s
    decreases |s|
  {
    if |s| > 0 {
      OccursShift(s, p);
      ReplaceAllAbsent(s[1..], p, r);
    }
  }

  /** Replacing every occurrence of one character by text without it leaves none. */
  lemma {:induction false} ReplaceAllRemovesChar(s: string, c: char, r: string)
    requires c !in r
    ensures c !in ReplaceAll(s, [c], r)
    decreases |s|
  {
    if |s| > 0 {
      ReplaceAllRemovesChar(s[1..], c, r);
    }
  }

  /** Replacing a character by a text keeps every other character's absence. */
  lemma {:induction false} ReplaceAllKeepsAbsent(s: string, p: string, r: string, c: char)
    requires |p| > 0 && c !in s && c !in r
    ensures c !in ReplaceAll(s, p, r)
    decreases |s|
  {
    if |s| > 0 {
      if p <= s {
        ReplaceAllKeepsAbsent(s[|p|..], p, r, c);
      } else {
        ReplaceAllKeepsAbsent(s[1..], p, r, c);
      }
    }
  }

  /** A piece of a text without line terminators has none either. */
  lemma NoLineTerminatorSlice(s: string, i: nat, j: nat)
    requires i <= j <= |s| && NoLineTerminator(s)
    ensures NoLineTerminator(s[i..j])
  {
    assert forall c :: c in s[i..j] ==> c in s by {
      forall c | c in s[i..j] ensures c in s {
        var k :| 0 <= k < j - i && s[i..j][k] == c;
        assert s[i + k] == c;
      }
    }
  }

  /** Text whose characters are not the pattern's first is copied by the global replace. */
  lemma {:induction false} ReplaceAllPlain(a: string, b: string, p: string, r: string)
    requires |p| > 0 && p[0] !in a
    ensures ReplaceAll(a + b, p, r) == a + ReplaceAll(b, p, r)
    decreases |a|
  {
    if |a| == 0 {
      assert a + b == b;
    } else {
      var s := a + b;
      var tail := a[1..];
      assert s[0] == a[0] && s[1..] == tail + b;
      assert !(p <= s);
      ReplaceAllPlain(tail, b, p, r);
      calc {
        ReplaceAll(s, p, r);
        [a[0]] + ReplaceAll(tail + b, p, r);
        [a[0]] + (tail + ReplaceAll(b, p, r));
        { assert a == [a[0]] + tail; }
        a + ReplaceAll(b, p, r);
      }
    }
  }

  /** An occurrence of `p` puts its first character in the text. */
  lemma ContainsHead(s: string, p: string)
    requires |p| > 0 && Contains(s, p)
    ensures p[0] in s
  {
    var i: nat :| i <= |s| && OccursAt(s, p, i);
    assert s[i..i + |p|][0] == s[i];
  }

  /** Text before the first occurrence is copied unchanged. */
  lemma {:induction false} ReplaceAllBefore(s: string, p: string, r: string, i: nat)
    requires |p| > 0 && i <= |s|
    requires forall j: nat :: j < i ==> !OccursAt(s, p, j)
    ensures ReplaceAll(s, p, r) == s[..i] + ReplaceAll(s[i..], p, r)
    decreases i
  {
    if i > 0 {
      assert !OccursAt(s, p, 0);
      OccursShift(s, p);
      ReplaceAllBefore(s[1..], p, r, i - 1);
      assert s[1..][..i - 1] == s[1..i];
      assert s[1..][i - 1..] == s[i..];
      assert s[..i] == [s[0]] + s[1..i];
    }
  }

  /** An occurrence at the front is replaced, and the scan resumes after it. */
  lemma ReplaceAllAt(t: string, p: string, r: string)
    requires |p| > 0 && OccursAt(t, p, 0)
    ensures ReplaceAll(t, p, r) == r + ReplaceAll(t[|p|..], p, r)
  {
    assert p <= t by {
      assert t[..|p|] == t[0..|p|];
    }
  }

  /**
   * The global replace is the split at every occurrence joined again with the replacement:
   * the pieces between replacements hold no occurrence of the pattern.
   */
  lemma {:induction false} ReplaceAllIsSplitJoin(s: string, p: string, r: string)
    requires |p| > 0
    ensures ReplaceAll(s, p, r) == Join(Split(s, p), r)
    decreases |s|
  {
    match IndexOf(s, p)
    case None =>
      ReplaceAllAbsent(s, p, r);
    case Some(i) =>
      var rest := s[i + |p|..];
      ReplaceAllBefore(s, p, r, i);
      ReplaceAllAt(s[i..], p, r);
      assert s[i..][|p|..] == rest;
      ReplaceAllIsSplitJoin(rest, p, r);
      SplitAt(s, p, i);
      JoinCons(s[..i], Split(rest, p), r);
      Assoc3(s[..i], r, ReplaceAll(rest, p, r));
  }

  lemma SplitAt(s: string, sep: string, i: nat)
    requires |sep| > 0 && IndexOf(s, sep) == Some(i)
    ensures Split(s, sep) == [s[..i]] + Split(s[i + |sep|..], sep)
  {
  }

  lemma JoinCons(a: string, parts: seq<string>, sep: string)
    requires |parts| > 0
    ensures Join([a] + parts, sep) == a + sep + Join(parts, sep)
  {
    assert ([a] + parts)[1..] == parts;
  }

  /** `s.replace(p, r)` for a literal string `p`: only the first occurrence. */
  function ReplaceFirst(s: string, p: string, r: string): (t: string)
    ensures IndexOf(s, p).None? ==> t == s
    ensures IndexOf(s, p).Some? ==>
      var i := IndexOf(s, p).value; t == s[..i] + r + s[i + |p|..]
  {
    match IndexOf(s, p)
    case None => s
    case Some(i) => s[..i] + r + s[i + |p|..]
  }

  /** `s.replace(/c/g, d)` for one character replaced by one character. */
  function ReplaceChar(s: string, c: char, d: char): (t: string)
    ensures |t| == |s|
    ensures forall i :: 0 <= i < |s| ==> t[i] == if s[i] == c then d else s[i]
  {
    seq(|s|, i requires 0 <= i < |s| => if s[i] == c then d else s[i])
  }

  /** The global replace of one character by one character is `ReplaceChar`. */
  lemma {:induction false} ReplaceAllChar(s: string, c: char, d: char)
    ensures ReplaceAll(s, [c], [d]) == ReplaceChar(s, c, d)
    decreases |s|
  {
    if |s| > 0 {
      ReplaceAllChar(s[1..], c, d);
      assert ReplaceChar(s, c, d) == [if s[0] == c then d else s[0]] + ReplaceChar(s[1..], c, d);
      if [c] <= s {
        assert s[|[c]|..] == s[1..];
      }
    }
  }

  /** `s.trimStart()`. */
  function TrimStart(s: string): (t: string)
    ensures |t| <= |s| && t == s[|s| - |t|..]
    ensures forall k :: 0 <= k < |s| - |t| ==> IsSpace(s[k])
    ensures |t| > 0 ==> !IsSpace(t[0])
  {
    if |s| > 0 && IsSpace(s[0]) then TrimStart(s[1..]) else s
  }

  /** `s.trimEnd()`. */
  function TrimEnd(s: string): (t: string)
    ensures |t| <= |s| && t == s[..|t|]
    ensures forall k :: |t| <= k < |s| ==> IsSpace(s[k])
    ensures |t| > 0 ==> !IsSpace(t[|t| - 1])
  {
    if |s| > 0 && IsSpace(s[|s| - 1]) then TrimEnd(s[..|s| - 1]) else s
  }

  /** `s.trim()`. */
  function Trim(s: string): string {
    TrimEnd(TrimStart(s))
  }

  /** What `trim` leaves neither starts nor ends with white space, and every character it keeps
      comes from the input. */
  lemma TrimmedEnds(s: string)
    ensures |Trim(s)| > 0 ==> !IsSpace(Trim(s)[0]) && !IsSpace(Trim(s)[|Trim(s)| - 1])
    ensures forall c :: c in Trim(s) ==> c in s
  {
    var a := TrimStart(s);
    var t := TrimEnd(a);
    assert |t| > 0 ==> t[0] == a[0];
    forall c | c in t ensures c in s {
      var k :| 0 <= k < |t| && t[k] == c;
      assert a[k] == c;
      assert s[|s| - |a| + k] == c;
    }
  }

  function LowerChar(c: char): char {
    if 'A' <= c <= 'Z' then (c as int - 'A' as int + 'a' as int) as char else c
  }

  /** `s.toLowerCase()` restricted to ASCII letters. */
  function ToLowerAscii(s: string): (t: string)
    ensures |t| == |s|
    ensures forall i :: 0 <= i < |s| ==> t[i] == LowerChar(s[i])
  {
    seq(|s|, i requires 0 <= i < |s| => LowerChar(s[i]))
  }
}

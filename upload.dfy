/**
 * The PDF upload endpoint of `netlify/functions/upload-pdf.js`: a small multipart/form-data
 * parser (a loose reading of section 4.2 of RFC 7578, with the boundary delimiters of section
 * 5.1.1 of RFC 2046 taken as plain text to split on), the checks on the parsed fields, and the
 * folder name made from the category.
 */
module Upload {
  import opened Wrappers
  import opened Text
  import opened Seqs

  // ---------------------------------------------------------------- lines of a part

  const DispositionPrefix: string := "Content-Disposition:"
  const Crlf: string := "\r\n"

  predicate IsHeaderLine(line: string) {
    StartsWith(line, DispositionPrefix)
  }

  /** A line that switches to content: blank after trimming, and not a header line. */
  predicate IsBlankLine(line: string) {
    !IsHeaderLine(line) && Trim(line) == ""
  }

  /** The three variables of the inner loop. */
  datatype LineState = LineState(header: string, content: string, isContent: bool)

  /** One turn of the inner loop: a header line is kept, a blank line starts the content, and
      from then on every other line is added with a CRLF. */
  function ScanStep(st: LineState, line: string): LineState {
    if IsHeaderLine(line) then st.(header := line)
    else if Trim(line) == "" then st.(isContent := true)
    else if st.isContent then st.(content := st.content + line + Crlf)
    else st
  }

  /** The inner loop over all lines. */
  function Scan(lines: seq<string>): LineState {
    if |lines| == 0 then LineState("", "", false)
    else ScanStep(Scan(lines[..|lines| - 1]), lines[|lines| - 1])
  }

  /** The index of the first blank line. */
  function FirstBlank(lines: seq<string>): (r: Option<nat>)
    ensures r.Some? ==> r.value < |lines| && IsBlankLine(lines[r.value])
    ensures r.Some? ==> forall j :: 0 <= j < r.value ==> !IsBlankLine(lines[j])
    ensures r.None? ==> forall j :: 0 <= j < |lines| ==> !IsBlankLine(lines[j])
  {
    if |lines| == 0 then None
    else
      var front := FirstBlank(lines[..|lines| - 1]);
      if front.Some? then front
      else if IsBlankLine(lines[|lines| - 1]) then Some(|lines| - 1)
      else None
  }

  /** The lines that carry content: neither header lines nor blank. */
  function Select(lines: seq<string>): seq<string> {
    if |lines| == 0 then []
    else
      var l := lines[|lines| - 1];
      Select(lines[..|lines| - 1]) + (if !IsHeaderLine(l) && Trim(l) != "" then [l] else [])
  }

  /** Every selected line is one of the lines, neither a header line nor blank. */
  lemma {:induction false} SelectFrom(lines: seq<string>)
    ensures forall k :: 0 <= k < |Select(lines)| ==>
      Select(lines)[k] in lines && !IsHeaderLine(Select(lines)[k]) && Trim(Select(lines)[k]) != ""
  {
    if |lines| > 0 {
      var n := |lines| - 1;
      SelectFrom(lines[..n]);
      forall k | 0 <= k < |Select(lines)|
        ensures Select(lines)[k] in lines
      {
        if k < |Select(lines[..n])| {
          assert Select(lines)[k] == Select(lines[..n])[k];
          assert Select(lines)[k] in lines[..n];
        } else {
          assert Select(lines)[k] == lines[n];
        }
      }
    }
  }

  /** Lines, each followed by CRLF. */
  function Lines(ls: seq<string>): string {
    if |ls| == 0 then "" else Lines(ls[..|ls| - 1]) + ls[|ls| - 1] + Crlf
  }

  lemma ScanLast(lines: seq<string>)
    requires |lines| > 0
    ensures Scan(lines) == ScanStep(Scan(lines[..|lines| - 1]), lines[|lines| - 1])
  {
  }

  lemma HeaderStep(st: LineState, line: string)
    ensures ScanStep(st, line).header == if IsHeaderLine(line) then line else st.header
  {
  }

  lemma ContentStep(st: LineState, line: string)
    ensures ScanStep(st, line).isContent == (st.isContent || IsBlankLine(line))
    ensures ScanStep(st, line).content
      == st.content + (if st.isContent && !IsHeaderLine(line) && Trim(line) != "" then line + Crlf else "")
  {
  }

  predicate NoHeader(lines: seq<string>) {
    forall j :: 0 <= j < |lines| ==> !IsHeaderLine(lines[j])
  }

  /** Line `k` is the last header line. */
  predicate LastHeaderAt(lines: seq<string>, k: nat) {
    k < |lines| && IsHeaderLine(lines[k]) && forall j :: k < j < |lines| ==> !IsHeaderLine(lines[j])
  }

  lemma HeaderExtend(front: seq<string>, l: string, k: nat)
    requires LastHeaderAt(front, k) && !IsHeaderLine(l)
    ensures LastHeaderAt(front + [l], k)
  {
    var lines := front + [l];
    assert lines[k] == front[k];
    forall j | k < j < |lines|
      ensures !IsHeaderLine(lines[j])
    {
      if j < |front| {
        assert lines[j] == front[j];
      }
    }
  }

  lemma NoHeaderExtend(front: seq<string>, l: string)
    requires NoHeader(front) && !IsHeaderLine(l)
    ensures NoHeader(front + [l])
  {
    var lines := front + [l];
    forall j | 0 <= j < |lines|
      ensures !IsHeaderLine(lines[j])
    {
      if j < |front| {
        assert lines[j] == front[j];
      }
    }
  }

  /**
   * The header of a part is its last `Content-Disposition:` line, or empty when it has none.
   */
  lemma {:induction false} ScanHeader(lines: seq<string>)
    ensures (Scan(lines).header == "" && NoHeader(lines))
      || exists k: nat :: LastHeaderAt(lines, k) && Scan(lines).header == lines[k]
  {
    if |lines| > 0 {
      var n := |lines| - 1;
      var front := lines[..n];
      var l := lines[n];
      assert lines == front + [l];
      ScanHeader(front);
      ScanLast(lines);
      HeaderStep(Scan(front), l);
      if IsHeaderLine(l) {
        assert LastHeaderAt(lines, n);
      } else if Scan(front).header == "" && NoHeader(front) {
        NoHeaderExtend(front, l);
      } else {
        var k: nat :| LastHeaderAt(front, k) && Scan(front).header == front[k];
        HeaderExtend(front, l, k);
        assert lines[k] == front[k];
      }
    }
  }

  lemma SelectStep(xs: seq<string>, l: string)
    ensures Lines(Select(xs + [l]))
      == Lines(Select(xs)) + (if !IsHeaderLine(l) && Trim(l) != "" then l + Crlf else "")
  {
    var ys := xs + [l];
    assert ys[..|ys| - 1] == xs;
    if !IsHeaderLine(l) && Trim(l) != "" {
      var s := Select(xs) + [l];
      assert s[..|s| - 1] == Select(xs);
    } else {
      assert Select(ys) == Select(xs) + [];
      assert Select(xs) + [] == Select(xs);
    }
  }

  lemma FirstBlankLast(lines: seq<string>)
    requires |lines| > 0
    ensures var front := FirstBlank(lines[..|lines| - 1]);
      FirstBlank(lines)
      == if front.Some? then front else if IsBlankLine(lines[|lines| - 1]) then Some(|lines| - 1) else None
  {
  }

  /** A line after the first blank line adds itself to the content when it is selected. */
  lemma ContentAfterBlank(lines: seq<string>, b: nat)
    requires |lines| > 0 && FirstBlank(lines[..|lines| - 1]) == Some(b)
    requires Scan(lines[..|lines| - 1]).isContent
    requires Scan(lines[..|lines| - 1]).content == Lines(Select(lines[..|lines| - 1][b + 1..]))
    ensures FirstBlank(lines) == Some(b) && Scan(lines).isContent
    ensures Scan(lines).content == Lines(Select(lines[b + 1..]))
  {
    var n := |lines| - 1;
    FirstBlankLast(lines);
    ScanLast(lines);
    ContentAppend(lines[..n], lines[n], lines[..n][b + 1..]);
    SliceSnoc(lines, b + 1);
  }

  /** Once the content has started, the next line adds itself when it is selected. */
  lemma ContentAppend(front: seq<string>, l: string, tail: seq<string>)
    requires Scan(front).isContent && Scan(front).content == Lines(Select(tail))
    ensures ScanStep(Scan(front), l).isContent
    ensures ScanStep(Scan(front), l).content == Lines(Select(tail + [l]))
  {
    ContentStep(Scan(front), l);
    SelectStep(tail, l);
  }

  /** Up to the first blank line nothing is content. */
  lemma ContentBeforeBlank(lines: seq<string>)
    requires |lines| > 0 && FirstBlank(lines[..|lines| - 1]).None?
    requires !Scan(lines[..|lines| - 1]).isContent && Scan(lines[..|lines| - 1]).content == ""
    ensures Scan(lines).isContent <==> FirstBlank(lines).Some?
    ensures Scan(lines).content == ""
    ensures FirstBlank(lines).Some? ==> FirstBlank(lines).value == |lines| - 1
  {
    var n := |lines| - 1;
    ScanLast(lines);
    ContentStep(Scan(lines[..n]), lines[n]);
    FirstBlankLast(lines);
  }

  lemma NoLines(ls: seq<string>)
    requires |ls| == 0
    ensures Lines(Select(ls)) == ""
  {
  }

  /**
   * The content of a part: the lines after its first blank line that are neither blank nor
   * header lines, each re-terminated with CRLF; with no blank line there is no content.
   */
  lemma {:induction false} ScanContent(lines: seq<string>)
    ensures ContentSplit(lines)
  {
    if |lines| > 0 {
      ScanContent(lines[..|lines| - 1]);
      ContentGrow(lines);
    }
  }

  /** The content of the loop's state in terms of the first blank line. */
  predicate ContentSplit(lines: seq<string>) {
    && (Scan(lines).isContent <==> FirstBlank(lines).Some?)
    && (FirstBlank(lines).None? ==> Scan(lines).content == "")
    && (FirstBlank(lines).Some? ==>
      Scan(lines).content == Lines(Select(lines[FirstBlank(lines).value + 1..])))
  }

  /** One more line keeps the content split. */
  lemma ContentGrow(lines: seq<string>)
    requires |lines| > 0 && ContentSplit(lines[..|lines| - 1])
    ensures ContentSplit(lines)
  {
    var n := |lines| - 1;
    var front := FirstBlank(lines[..n]);
    if front.Some? {
      ContentAfterBlank(lines, front.value);
    } else {
      ContentBeforeBlank(lines);
      NoLines(lines[|lines|..]);
    }
  }

  /**
   * The inner `forEach` of `parseMultipartFormData`, with its three variables; the result is
   * the header line and the content.
   */
  method ScanLines(lines: seq<string>) returns (header: string, content: string)
    ensures header == Scan(lines).header && content == Scan(lines).content
  {
    header, content := "", "";
    var isContent := false;
    for i := 0 to |lines|
      invariant LineState(header, content, isContent) == Scan(lines[..i])
    {
      assert lines[..i + 1][..i] == lines[..i];
      var line := lines[i];
      if IsHeaderLine(line) {
        header := line;
      } else if Trim(line) == "" {
        isContent := true;
      } else if isContent {
        content := content + line + Crlf;
      }
    }
    assert lines[..|lines|] == lines;
  }

  // ---------------------------------------------------------------- quoted parameters

  /** The first index at or after `i` that holds a quote, or the length. */
  function QuoteEnd(h: string, i: nat): (q: nat)
    requires i <= |h|
    ensures i <= q <= |h| && (q < |h| ==> h[q] == '"')
    ensures forall k :: i <= k < q ==> h[k] != '"'
    decreases |h| - i
  {
    if i == |h| || h[i] == '"' then i else QuoteEnd(h, i + 1)
  }

  /**
   * `h.match(/p([^"]+)"/)` for a pattern `p` ending in `="`, tried from index `i` on: the first
   * place where `p` is followed by at least one non-quote and then a quote.
   */
  function QuotedFrom(h: string, p: string, i: nat): (r: Option<string>)
    requires |p| > 0 && i <= |h|
    ensures r.Some? ==> |r.value| > 0 && '"' !in r.value
    ensures r.Some? ==> exists k: nat :: i <= k && OccursAt(h, p + r.value + "\"", k)
    decreases |h| - i
  {
    if i + |p| > |h| then None
    else
      var s := i + |p|;
      var q := QuoteEnd(h, s);
      if OccursAt(h, p, i) && s < q < |h| then
        var v := h[s..q];
        assert h[i..q + 1] == p + v + "\"";
        assert OccursAt(h, p + v + "\"", i);
        Some(v)
      else QuotedFrom(h, p, i + 1)
  }

  function Quoted(h: string, p: string): Option<string>
    requires |p| > 0
  {
    QuotedFrom(h, p, 0)
  }

  /** A parameter written out as `p` + value + quote is read back. */
  lemma QuotedRoundTrip(p: string, v: string, rest: string)
    requires |p| > 0 && |v| > 0 && '"' !in v
    ensures Quoted(p + v + "\"" + rest, p) == Some(v)
  {
    var h := p + v + "\"" + rest;
    assert h[..|p|] == p;
    assert forall k :: |p| <= k < |p| + |v| ==> h[k] == v[k - |p|];
    assert h[|p| + |v|] == '"';
    assert QuoteEnd(h, |p|) == |p| + |v| by {
      QuoteEndAt(h, |p|, |p| + |v|);
    }
    assert h[|p|..|p| + |v|] == v;
  }

  lemma {:induction false} QuoteEndAt(h: string, i: nat, q: nat)
    requires i <= q < |h| && h[q] == '"' && forall k :: i <= k < q ==> h[k] != '"'
    ensures QuoteEnd(h, i) == q
    decreases q - i
  {
    if i < q {
      QuoteEndAt(h, i + 1, q);
    }
  }

  const NamePattern: string := "name=\""
  const FilenamePattern: string := "filename=\""

  // ---------------------------------------------------------------- the form

  /** A form value: a field's text, or the file's bytes (as a binary string). */
  datatype Value = Text(text: string) | Bytes(data: string)

  /** JavaScript truthiness of `formData[key]`: a buffer always, a string when non-empty. */
  predicate Present(fd: map<string, Value>, key: string) {
    key in fd && (fd[key].Bytes? || fd[key].text != "")
  }

  /** `contentType.split('boundary=')[1]`, which reads `undefined` when there is none. */
  function Boundary(contentType: string): string {
    var ps := Split(contentType, "boundary=");
    if |ps| >= 2 then ps[1] else "undefined"
  }

  /** A part the parser looks at: not blank, and without `--` anywhere. */
  predicate Considered(part: string) {
    Trim(part) != "" && !Contains(part, "--")
  }

  /** The field name a part declares, if it is looked at. */
  function PartName(part: string): Option<string> {
    if Considered(part) then Quoted(Scan(Split(part, Crlf)).header, NamePattern) else None
  }

  /**
   * One part: a named part with a filename sets `file` and `filename`; any other named part sets
   * its field to its trimmed content; nothing else changes.
   */
  function ApplyPart(fd: map<string, Value>, part: string): (r: map<string, Value>)
    ensures !Considered(part) || PartName(part).None? ==> r == fd
    ensures forall k :: k in fd ==> k in r
    ensures forall k :: k in r && (k !in fd || r[k] != fd[k]) ==>
      k == "file" || k == "filename" || PartName(part) == Some(k)
  {
    if !Considered(part) then fd
    else
      var st := Scan(Split(part, Crlf));
      match Quoted(st.header, NamePattern)
      case None => fd
      case Some(fieldName) =>
        match Quoted(st.header, FilenamePattern)
        case Some(filename) => fd["file" := Bytes(st.content)]["filename" := Text(filename)]
        case None => fd[fieldName := Text(Trim(st.content))]
  }

  /** The outer `forEach`, part by part; a later part overwrites what an earlier one set. */
  function FoldParts(parts: seq<string>): map<string, Value> {
    if |parts| == 0 then map[] else ApplyPart(FoldParts(parts[..|parts| - 1]), parts[|parts| - 1])
  }

  lemma FoldLast(parts: seq<string>, i: nat)
    requires i < |parts|
    ensures FoldParts(parts[..i + 1]) == ApplyPart(FoldParts(parts[..i]), parts[i])
  {
    assert parts[..i + 1][..i] == parts[..i];
  }

  /** `parseMultipartFormData`. */
  function ParseForm(body: string, contentType: string): map<string, Value> {
    FoldParts(Split(body, "--" + Boundary(contentType)))
  }

  /** A file part with its name and filename is read back: both keys are set, the file holds
      the content lines. */
  lemma FilePartRead(fd: map<string, Value>, part: string)
    requires Considered(part)
    requires var h := Scan(Split(part, Crlf)).header;
      Quoted(h, NamePattern).Some? && Quoted(h, FilenamePattern).Some?
    ensures var st := Scan(Split(part, Crlf));
      ApplyPart(fd, part)["file"] == Bytes(st.content)
      && ApplyPart(fd, part)["filename"] == Text(Quoted(st.header, FilenamePattern).value)
      && Present(ApplyPart(fd, part), "file") && Present(ApplyPart(fd, part), "filename")
  {
  }

  /** The filename a file part sets is never empty and holds no quote. */
  lemma FilenameClean(fd: map<string, Value>, part: string)
    requires Considered(part) && PartName(part).Some?
    requires Quoted(Scan(Split(part, Crlf)).header, FilenamePattern).Some?
    ensures ApplyPart(fd, part)["filename"].Text?
    ensures var f := ApplyPart(fd, part)["filename"].text; f != "" && '"' !in f
  {
  }

  /** `parseMultipartFormData`: the two nested loops, filling `formData` in place. */
  method ParseMultipartFormData(body: string, contentType: string) returns (formData: map<string, Value>)
    ensures formData == ParseForm(body, contentType)
  {
    var boundary := Boundary(contentType);
    var parts := Split(body, "--" + boundary);
    formData := map[];
    for i := 0 to |parts|
      invariant formData == FoldParts(parts[..i])
    {
      FoldLast(parts, i);
      var part := parts[i];
      ghost var before := formData;
      if Trim(part) != "" && !Contains(part, "--") {
        var header, content := ScanLines(Split(part, Crlf));
        var nameMatch := Quoted(header, NamePattern);
        var filenameMatch := Quoted(header, FilenamePattern);
        if nameMatch.Some? {
          if filenameMatch.Some? {
            formData := formData["file" := Bytes(content)];
            formData := formData["filename" := Text(filenameMatch.value)];
          } else {
            formData := formData[nameMatch.value := Text(Trim(content))];
          }
        }
      }
      assert formData == ApplyPart(before, part);
    }
    assert parts[..|parts|] == parts;
  }

  // ---------------------------------------------------------------- folder names

  /** `[a-z0-9-_]`. */
  predicate IsFolderChar(c: char) {
    'a' <= c <= 'z' || '0' <= c <= '9' || c == '-' || c == '_'
  }

  /** `category.toLowerCase().replace(/[^a-z0-9-_]/g, '-')`. */
  function Sanitize(category: string): (r: string)
    ensures |r| == |category|
    ensures forall i :: 0 <= i < |r| ==> IsFolderChar(r[i])
    ensures forall i :: 0 <= i < |r| ==>
      r[i] == (if IsFolderChar(LowerChar(category[i])) then LowerChar(category[i]) else '-')
  {
    var lower := ToLowerAscii(category);
    seq(|lower|, i requires 0 <= i < |lower| => if IsFolderChar(lower[i]) then lower[i] else '-')
  }

  /** A folder name is already sanitised. */
  lemma SanitizeIdempotent(category: string)
    ensures Sanitize(Sanitize(category)) == Sanitize(category)
  {
    var s := Sanitize(category);
    forall i | 0 <= i < |s|
      ensures Sanitize(s)[i] == s[i]
    {
      assert LowerChar(s[i]) == s[i];
    }
  }

  /** A sanitised name is `-` exactly when the category is one character outside the set. */
  lemma SanitizeDash(category: string)
    ensures Sanitize(category) == "-" <==>
      |category| == 1 && (category[0] == '-' || !IsFolderChar(LowerChar(category[0])))
  {
    if |category| == 1 {
      assert Sanitize(category) == [Sanitize(category)[0]];
    }
  }

  // ---------------------------------------------------------------- the handler

  datatype UploadBody =
    | Error(error: string)
    | Internal                              // `Internal server error`, with the thrown message
    | Uploaded(message: string, path: string)

  datatype UploadReply = UploadReply(status: int, body: UploadBody)

  /** The file the handler writes. */
  datatype StoredFile = StoredFile(path: string, data: string)

  const MissingFields: string := "Missing required fields: file, category, filename"
  const NotPdf: string := "Only PDF files are allowed"
  const BadFolder: string := "Invalid folder name"

  function DataOf(v: Value): string {
    match v
    case Text(t) => t
    case Bytes(b) => b
  }

  /** Every field the handler needs is there. */
  predicate Complete(fd: map<string, Value>) {
    Present(fd, "file") && Present(fd, "category") && Present(fd, "filename")
  }

  /** The filename names a PDF, in any case. */
  predicate IsPdfName(filename: string) {
    EndsWith(ToLowerAscii(filename), ".pdf")
  }

  /** A present category never sanitises to the empty name, so only `-` is refused. */
  lemma EmptyFolderUnreachable(category: string)
    requires category != ""
    ensures Sanitize(category) != ""
  {
  }

  /**
   * The handler. `contentType` is `None` when the header is missing, which throws; `writeOk`
   * stands for creating the folders and writing the file.
   */
  method UploadPdf(httpMethod: string, body: string, contentType: Option<string>, writeOk: bool)
    returns (reply: UploadReply, written: Option<StoredFile>)
    ensures httpMethod != "POST" ==> reply == UploadReply(405, Error("Method not allowed"))
    ensures httpMethod == "POST" && contentType.None? ==> reply == UploadReply(500, Internal)
    ensures (httpMethod == "POST" && contentType.Some?
             && !Complete(ParseForm(body, contentType.value))) ==>
      reply == UploadReply(400, Error(MissingFields))
    ensures written.Some? ==> reply.status == 200
    ensures reply.status == 200 ==>
      httpMethod == "POST" && contentType.Some? && writeOk
      && var fd := ParseForm(body, contentType.value);
         Complete(fd) && fd["filename"].Text? && fd["category"].Text?
         && IsPdfName(fd["filename"].text)
         && Sanitize(fd["category"].text) != "-"
         && var path := "docs/" + Sanitize(fd["category"].text) + "/" + fd["filename"].text;
            reply.body == Uploaded("PDF uploaded successfully to " + path, path)
            && written == Some(StoredFile(path, DataOf(fd["file"])))
    ensures (httpMethod == "POST" && contentType.Some? && Complete(ParseForm(body, contentType.value))
             && ParseForm(body, contentType.value)["filename"].Text?
             && !IsPdfName(ParseForm(body, contentType.value)["filename"].text)) ==>
      reply == UploadReply(400, Error(NotPdf))
    ensures reply.status == 400 && reply.body == Error(BadFolder) ==>
      var fd := ParseForm(body, contentType.value);
      Complete(fd) && fd["category"].Text? && Sanitize(fd["category"].text) == "-"
    ensures (httpMethod == "POST" && contentType.Some?
             && var fd := ParseForm(body, contentType.value);
                Complete(fd) && fd["filename"].Text? && fd["category"].Text?
                && IsPdfName(fd["filename"].text)) ==>
      var folder := Sanitize(ParseForm(body, contentType.value)["category"].text);
      (folder == "-" ==> reply == UploadReply(400, Error(BadFolder)) && written.None?)
      && (folder != "-" && !writeOk ==> reply == UploadReply(500, Internal) && written.None?)
      && (folder != "-" && writeOk ==> reply.status == 200 && written.Some?)
  {
    written := None;
    if httpMethod != "POST" {
      return UploadReply(405, Error("Method not allowed")), None;
    }
    if contentType.None? {
      return UploadReply(500, Internal), None;
    }
    var formData := ParseMultipartFormData(body, contentType.value);
    if !Present(formData, "file") || !Present(formData, "category") || !Present(formData, "filename") {
      return UploadReply(400, Error(MissingFields)), None;
    }
    // `toLowerCase` on a buffer throws; the parser only ever stores text under these two keys
    if formData["filename"].Bytes? {
      return UploadReply(500, Internal), None;
    }
    var filename := formData["filename"].text;
    if !IsPdfName(filename) {
      return UploadReply(400, Error(NotPdf)), None;
    }
    if formData["category"].Bytes? {
      return UploadReply(500, Internal), None;
    }
    var sanitizedCategory := Sanitize(formData["category"].text);
    if sanitizedCategory == "" || sanitizedCategory == "-" {
      return UploadReply(400, Error(BadFolder)), None;
    }
    if !writeOk {
      return UploadReply(500, Internal), None;
    }
    var path := "docs/" + sanitizedCategory + "/" + filename;
    written := Some(StoredFile(path, DataOf(formData["file"])));
    reply := UploadReply(200, Uploaded("PDF uploaded successfully to " + path, path));
  }
}

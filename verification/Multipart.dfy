/** Multipart form data, against a reader of section 5.1.1 of RFC 2046. */
module Multipart {
  import opened Wrappers

  datatype Attachment = Attachment(name: string, data: string)

  /** A body part: its header lines, without the blank line, and its body. */
  datatype Part = Part(header: string, body: string)

  const CRLF: string := "\r\n"
  const BLANK_LINE: string := "\r\n\r\n"

  predicate CrFree(s: string) {
    '\r' !in s
  }

  // ----- the writer -----

  const JSON_DISPOSITION: string := "Content-Disposition: form-data; name=\"payload_json\""
  const JSON_TYPE: string := "Content-Type: application/json"

  function JsonHeader(): string {
    JSON_DISPOSITION + CRLF + JSON_TYPE
  }

  function Decimal(n: nat): (s: string)
    ensures CrFree(s) && s != ""
  {
    var last := ['0' + (n % 10) as char];
    if n < 10 then last else Decimal(n / 10) + last
  }

  const FILE_DISPOSITION: string := "Content-Disposition: form-data; name=\"files["
  const FILE_NAME: string := "]\"; filename=\""

  function FileHeader(i: nat, name: string): string {
    FILE_DISPOSITION + Decimal(i) + FILE_NAME + name + "\""
  }

  /** The delimiter: the line break before it belongs to it. */
  function Delimiter(boundary: string): string {
    CRLF + "--" + boundary
  }

  function PartText(p: Part): string {
    p.header + BLANK_LINE + p.body
  }

  /** What follows a delimiter: the remaining parts, each ended by another delimiter, then
      the close mark. */
  function Rest(parts: seq<Part>, boundary: string): string {
    if parts == [] then "--"
    else CRLF + PartText(parts[0]) + Delimiter(boundary) + Rest(parts[1..], boundary)
  }

  function FileParts(files: seq<Attachment>, i: nat): seq<Part>
    requires i <= |files|
    decreases |files| - i
  {
    if i == |files| then []
    else [Part(FileHeader(i, files[i].name), files[i].data)] + FileParts(files, i + 1)
  }

  function Parts(json: string, files: seq<Attachment>): seq<Part> {
    [Part(JsonHeader(), json)] + FileParts(files, 0)
  }

  method MakeFormData(json: string, boundary: string, files: seq<Attachment>) returns (data: string)
    ensures data == "--" + boundary + Rest(Parts(json, files), boundary)
  {
    data := "--" + boundary + CRLF;
    data := data + (JsonHeader() + BLANK_LINE);
    data := data + json;
    ghost var all := "--" + boundary + Rest(Parts(json, files), boundary);
    hide Rest, Delimiter, FileHeader, JsonHeader;
    JsonFirst(json, files, boundary);
    for i := 0 to |files|
      invariant data + Delimiter(boundary) + Rest(FileParts(files, i), boundary) == all
    {
      OneMore(data, Part(FileHeader(i, files[i].name), files[i].data), FileParts(files, i + 1), boundary);
      data := data + (Delimiter(boundary) + CRLF);
      data := data + (FileHeader(i, files[i].name) + BLANK_LINE);
      data := data + files[i].data;
    }
    CloseMark(boundary);
    data := data + (Delimiter(boundary) + "--");
  }

  lemma JsonFirst(json: string, files: seq<Attachment>, boundary: string)
    ensures "--" + boundary + CRLF + (JsonHeader() + BLANK_LINE) + json + Delimiter(boundary)
            + Rest(FileParts(files, 0), boundary)
         == "--" + boundary + Rest(Parts(json, files), boundary)
  {
    hide Delimiter, JsonHeader;
    assert Parts(json, files)[1..] == FileParts(files, 0);
    var d, r := Delimiter(boundary), Rest(FileParts(files, 0), boundary);
    assert "--" + boundary + CRLF + (JsonHeader() + BLANK_LINE) + json + d + r
        == "--" + boundary + (CRLF + (JsonHeader() + BLANK_LINE + json) + d + r);
  }

  lemma OneMore(data: string, p: Part, parts: seq<Part>, boundary: string)
    ensures data + (Delimiter(boundary) + CRLF) + (p.header + BLANK_LINE) + p.body + Delimiter(boundary)
            + Rest(parts, boundary)
         == data + Delimiter(boundary) + Rest([p] + parts, boundary)
  {
    hide Delimiter;
    assert ([p] + parts)[1..] == parts;
    var d, r := Delimiter(boundary), Rest(parts, boundary);
    assert data + (d + CRLF) + (p.header + BLANK_LINE) + p.body + d + r
        == data + d + (CRLF + (p.header + BLANK_LINE + p.body) + d + r);
  }

  lemma CloseMark(boundary: string)
    ensures Rest([], boundary) == "--"
  {
  }

  // ----- the reader -----

  predicate OccursAt(needle: string, s: string, i: nat) {
    i + |needle| <= |s| && s[i..i + |needle|] == needle
  }

  predicate Occurs(needle: string, s: string) {
    exists i | 0 <= i <= |s| :: OccursAt(needle, s, i)
  }

  /** The first occurrence at or after i. */
  function FindFrom(needle: string, s: string, i: nat): (r: Option<nat>)
    requires i <= |s|
    ensures r.Some? ==> r.value >= i && OccursAt(needle, s, r.value)
                        && forall j :: i <= j < r.value ==> !OccursAt(needle, s, j)
    ensures r.None? ==> forall j :: i <= j <= |s| ==> !OccursAt(needle, s, j)
    decreases |s| - i
  {
    if OccursAt(needle, s, i) then Some(i)
    else if i == |s| then None
    else FindFrom(needle, s, i + 1)
  }

  function BodyOf(segment: string): Option<string> {
    match FindFrom(BLANK_LINE, segment, 0)
    case None => None
    case Some(i) => Some(segment[i + |BLANK_LINE|..])
  }

  /** Reads what follows a delimiter: the close mark, or a line break and a part that ends
      at the next delimiter. */
  function ReadParts(s: string, boundary: string): Option<seq<string>>
    decreases |s|
  {
    if "--" <= s then Some([])
    else if !(CRLF <= s) then None
    else
      var content := s[2..];
      match FindFrom(Delimiter(boundary), content, 0)
      case None => None
      case Some(p) =>
        var body, rest := BodyOf(content[..p]), ReadParts(content[p + |Delimiter(boundary)|..], boundary);
        if body.None? || rest.None? then None else Some([body.value] + rest.value)
  }

  function Read(s: string, boundary: string): Option<seq<string>> {
    if "--" + boundary <= s then ReadParts(s[2 + |boundary|..], boundary) else None
  }

  // ----- where line breaks can be -----

  /** No blank line and no delimiter starts inside the header: every carriage return in it
      is followed, two characters on, by something else than a return or a dash. */
  predicate HeaderOk(h: string) {
    forall i :: 0 <= i < |h| && h[i] == '\r' ==> i + 2 < |h| && h[i + 2] != '\r' && h[i + 2] != '-'
  }

  lemma FileHeaderCrFree(i: nat, name: string)
    requires CrFree(name)
    ensures CrFree(FileHeader(i, name))
  {
    assert CrFree(FILE_DISPOSITION) && CrFree(FILE_NAME) && CrFree("\"");
    var d := Decimal(i);
    assert CrFree(FILE_DISPOSITION + d);
    assert CrFree(FILE_DISPOSITION + d + FILE_NAME);
  }

  lemma HeadersOk(i: nat, name: string)
    requires CrFree(name)
    ensures HeaderOk(FileHeader(i, name)) && HeaderOk(JsonHeader())
  {
    FileHeaderCrFree(i, name);
    var h, n := JsonHeader(), |JSON_DISPOSITION|;
    assert CrFree(JSON_DISPOSITION) && CrFree(JSON_TYPE);
    forall j | 0 <= j < |h| && j != n ensures h[j] != '\r' {
      if j < n {
        assert h[j] == JSON_DISPOSITION[j] && JSON_DISPOSITION[j] in JSON_DISPOSITION;
      } else if j >= n + 2 {
        assert h[j] == JSON_TYPE[j - n - 2] && JSON_TYPE[j - n - 2] in JSON_TYPE;
      }
    }
    assert h[n + 2] == JSON_TYPE[0] == 'C';
  }

  /** d begins with a line break and a dash, and no other carriage return follows: what a
      delimiter with a CR-free boundary looks like. */
  lemma DelimiterShape(boundary: string)
    requires CrFree(boundary)
    ensures var d := Delimiter(boundary);
            |d| >= 4 && d[0] == '\r' && d[2] == '-' && forall i :: 0 < i < |d| ==> d[i] != '\r'
  {
    var d := Delimiter(boundary);
    forall i | 0 < i < |d| ensures d[i] != '\r' {
      if i >= 4 { assert d[i] == boundary[i - 4] && boundary[i - 4] in boundary; }
    }
  }

  lemma OccursChar(needle: string, s: string, i: nat, j: nat)
    requires j < |needle|
    ensures OccursAt(needle, s, i) ==> i + j < |s| && s[i + j] == needle[j]
  {
    if OccursAt(needle, s, i) {
      assert s[i..i + |needle|][j] == s[i + j];
    }
  }

  /** No false delimiter straddles the join of a text and a true one. */
  lemma NoStraddle(x: string, d: string, y: string, i: nat)
    requires |d| > 0 && d[0] == '\r' && forall j :: 0 < j < |d| ==> d[j] != '\r'
    requires i < |x|
    ensures OccursAt(d, x + d + y, i) <==> OccursAt(d, x, i)
  {
    var s := x + d + y;
    if i + |d| <= |x| {
      assert s[i..i + |d|] == x[i..i + |d|];
    } else {
      assert s[|x|] == d[0];
      OccursChar(d, s, i, |x| - i);
    }
  }

  /** So the search for a delimiter stops at the true one exactly when the text before it
      contains none, and inside that text otherwise. */
  lemma FindsTrueDelimiter(x: string, d: string, y: string)
    requires |d| > 0 && d[0] == '\r' && forall j :: 0 < j < |d| ==> d[j] != '\r'
    ensures var r := FindFrom(d, x + d + y, 0);
            && r.Some? && r.value <= |x| && (r.value == |x| <==> !Occurs(d, x))
            && (r.value < |x| ==> OccursAt(d, x, r.value))
  {
    var s := x + d + y;
    assert s[|x|..|x| + |d|] == d;
    assert OccursAt(d, s, |x|);
    var r := FindFrom(d, s, 0);
    if r.value < |x| {
      NoStraddle(x, d, y, r.value);
    } else {
      forall i | 0 <= i <= |x| ensures !OccursAt(d, x, i) {
        if i < |x| { NoStraddle(x, d, y, i); }
      }
    }
  }

  /** Nothing that starts with a line break and then a dash or a return starts in a header
      or in the first two characters of the blank line after it. */
  lemma NotInHeader(h: string, needle: string, tail: string, i: nat)
    requires HeaderOk(h) && |needle| >= 3 && needle[0] == '\r' && (needle[2] == '-' || needle[2] == '\r')
    requires i < |h|
    ensures !OccursAt(needle, h + BLANK_LINE + tail, i)
  {
    var s := h + BLANK_LINE + tail;
    OccursChar(needle, s, i, 0);
    OccursChar(needle, s, i, 2);
    assert s[i] == h[i];
    if h[i] == '\r' { assert s[i + 2] == h[i + 2]; }
  }

  /** The header of a part ends at its first blank line, however much of the body follows. */
  lemma BodyIsFound(h: string, tail: string)
    requires HeaderOk(h)
    ensures BodyOf(h + BLANK_LINE + tail) == Some(tail)
  {
    var s := h + BLANK_LINE + tail;
    assert s[|h|..|h| + 4] == BLANK_LINE;
    assert OccursAt(BLANK_LINE, s, |h|);
    var r := FindFrom(BLANK_LINE, s, 0);
    if r.value < |h| { NotInHeader(h, BLANK_LINE, tail, r.value); }
    assert s[|h| + 4..] == tail;
  }

  /** A part cut off inside its blank line has no body at all. */
  lemma CutBlankLine(h: string)
    requires HeaderOk(h)
    ensures BodyOf(h + CRLF) == None
  {
    var s := h + CRLF;
    forall i | 0 <= i <= |s| ensures !OccursAt(BLANK_LINE, s, i) {
      OccursChar(BLANK_LINE, s, i, 0);
      OccursChar(BLANK_LINE, s, i, 2);
      if i < |h| {
        assert s[i] == h[i];
        if h[i] == '\r' { assert s[i + 2] == h[i + 2]; }
      }
    }
  }

  /** The condition on a body: with the line break before it, it contains no delimiter. */
  predicate BodyOk(body: string, boundary: string) {
    !Occurs(Delimiter(boundary), CRLF + body)
  }

  /** A delimiter occurs in a part's text exactly where it occurs in line break and body. */
  lemma OccursInPart(p: Part, d: string)
    requires HeaderOk(p.header) && |d| >= 4 && d[0] == '\r' && d[2] == '-'
    ensures Occurs(d, PartText(p)) <==> Occurs(d, CRLF + p.body)
    ensures forall i :: 0 <= i <= |PartText(p)| && OccursAt(d, PartText(p), i) ==>
              i == |p.header| + 2 || i >= |p.header| + 4
  {
    var n, t := |p.header| + 2, PartText(p);
    var u := CRLF + p.body;
    assert t == p.header + CRLF + u;
    forall i | 0 <= i <= |t| && OccursAt(d, t, i)
      ensures (i == n || i >= n + 2) && OccursAt(d, u, i - n)
    {
      OccursChar(d, t, i, 0);
      OccursChar(d, t, i, 2);
      if i < |p.header| { NotInHeader(p.header, d, p.body, i); }
      assert t[i..i + |d|] == u[i - n..i - n + |d|];
    }
    forall i | 0 <= i <= |u| && OccursAt(d, u, i) ensures OccursAt(d, t, n + i) {
      assert t[n + i..n + i + |d|] == u[i..i + |d|];
    }
    if Occurs(d, u) {
      var i :| 0 <= i <= |u| && OccursAt(d, u, i);
      assert OccursAt(d, t, n + i);
    }
  }

  function Bodies(parts: seq<Part>): seq<string> {
    if parts == [] then [] else [parts[0].body] + Bodies(parts[1..])
  }

  ghost predicate PartsOk(parts: seq<Part>) {
    forall p :: p in parts ==> HeaderOk(p.header)
  }

  ghost predicate BodiesOk(parts: seq<Part>, boundary: string) {
    forall p :: p in parts ==> BodyOk(p.body, boundary)
  }

  /** One round of the reader, once the search has stopped at `at`. */
  lemma ReadRound(content: string, boundary: string, at: nat)
    requires FindFrom(Delimiter(boundary), content, 0) == Some(at)
    ensures var body := BodyOf(content[..at]);
            var rest := ReadParts(content[at + |Delimiter(boundary)|..], boundary);
            ReadParts(CRLF + content, boundary)
              == if body.None? || rest.None? then None else Some([body.value] + rest.value)
  {
    hide Delimiter, BodyOf, OccursAt;
    assert (CRLF + content)[2..] == content;
    assert (CRLF + content)[0] == '\r' && !("--" <= CRLF + content);
  }

  /** What a part cut off at a false delimiter reads as: no body, or a shorter one. */
  lemma CutPart(p: Part, d: string, at: nat)
    requires HeaderOk(p.header) && |d| >= 4 && d[0] == '\r' && d[2] == '-'
    requires at <= |PartText(p)| && OccursAt(d, PartText(p), at)
    ensures var body := BodyOf(PartText(p)[..at]); body.None? || |body.value| < |p.body|
  {
    hide HeaderOk, BodyOf;
    OccursInPart(p, d);
    var n, x := |p.header|, PartText(p);
    if at == n + 2 {
      assert x[..at] == p.header + CRLF;
      CutBlankLine(p.header);
    } else {
      var cut := p.body[..at - n - 4];
      assert x[..at] == p.header + BLANK_LINE + cut;
      BodyIsFound(p.header, cut);
    }
  }

  /** Reading one part: it yields the part's body and goes on behind its delimiter if the
      body is harmless, and otherwise yields no body or a shorter one. */
  lemma ReadOne(p: Part, parts: seq<Part>, boundary: string)
    requires CrFree(boundary) && HeaderOk(p.header)
    ensures var r := ReadParts(Rest([p] + parts, boundary), boundary);
            var tail := ReadParts(Rest(parts, boundary), boundary);
            if BodyOk(p.body, boundary) then r == (if tail.None? then None else Some([p.body] + tail.value))
            else r.None? || (r.value != [] && |r.value[0]| < |p.body|)
  {
    hide Delimiter, HeaderOk, ReadParts, BodyOf, Occurs, PartText;
    DelimiterShape(boundary);
    var d, x, y := Delimiter(boundary), PartText(p), Rest(parts, boundary);
    assert ([p] + parts)[1..] == parts;
    assert Rest([p] + parts, boundary) == CRLF + (x + d + y);
    FindsTrueDelimiter(x, d, y);
    OccursInPart(p, d);
    var at := FindFrom(d, x + d + y, 0).value;
    ReadRound(x + d + y, boundary, at);
    if at == |x| {
      assert (x + d + y)[..at] == x && (x + d + y)[at + |d|..] == y;
      WholePart(p);
    } else {
      assert (x + d + y)[..at] == x[..at];
      CutPart(p, d, at);
    }
  }

  lemma WholePart(p: Part)
    requires HeaderOk(p.header)
    ensures BodyOf(PartText(p)) == Some(p.body)
  {
    BodyIsFound(p.header, p.body);
  }

  lemma {:induction false} ReadRest(parts: seq<Part>, boundary: string)
    requires CrFree(boundary) && PartsOk(parts)
    ensures ReadParts(Rest(parts, boundary), boundary) == Some(Bodies(parts)) <==> BodiesOk(parts, boundary)
  {
    hide BodyOk, Rest;
    if parts == [] {
      CloseMark(boundary);
    } else {
      var p, rest := parts[0], parts[1..];
      assert parts == [p] + rest;
      assert p in parts && (forall q :: q in rest ==> q in parts);
      ReadRest(rest, boundary);
      ReadOne(p, rest, boundary);
      var r, tail := ReadParts(Rest(parts, boundary), boundary), ReadParts(Rest(rest, boundary), boundary);
      assert Bodies(parts)[0] == p.body && Bodies(parts)[1..] == Bodies(rest);
      if BodyOk(p.body, boundary) && tail.Some? {
        assert r.value[1..] == tail.value;
      }
    }
  }

  lemma {:induction false} FilePartAt(files: seq<Attachment>, i: nat, k: nat)
    requires i <= |files|
    ensures |FileParts(files, i)| == |files| - i
    ensures k < |files| - i ==> FileParts(files, i)[k] == Part(FileHeader(i + k, files[i + k].name), files[i + k].data)
    decreases |files| - i
  {
    hide FileHeader;
    if i < |files| {
      FilePartAt(files, i + 1, if k > 0 then k - 1 else 0);
    }
  }

  lemma {:induction false} BodyAt(parts: seq<Part>, k: nat)
    ensures |Bodies(parts)| == |parts|
    ensures k < |parts| ==> Bodies(parts)[k] == parts[k].body
  {
    if parts != [] {
      BodyAt(parts[1..], if k > 0 then k - 1 else 0);
    }
  }

  /** The parts made of the attachments: well-formed headers, and the data as bodies. */
  lemma FilePartsAre(files: seq<Attachment>)
    requires forall f :: f in files ==> CrFree(f.name)
    ensures var more := FileParts(files, 0);
            && PartsOk(more) && |more| == |files|
            && Bodies(more) == seq(|files|, i requires 0 <= i < |files| => files[i].data)
            && forall k :: 0 <= k < |files| ==> more[k].body == files[k].data
  {
    hide FileHeader, HeaderOk, FileParts, Bodies;
    var more := FileParts(files, 0);
    FilePartAt(files, 0, 0);
    BodyAt(more, 0);
    forall k | 0 <= k < |files|
      ensures more[k].body == files[k].data == Bodies(more)[k] && HeaderOk(more[k].header)
    {
      FilePartAt(files, 0, k);
      BodyAt(more, k);
      assert files[k] in files;
      HeadersOk(k, files[k].name);
    }
  }

  /** For a CR-free boundary and CR-free names, a reader of the form data recovers exactly
      the JSON and every attachment, in order, if and only if none of them contains the
      delimiter and none starts with the dashes and the boundary. */
  lemma FormDataRoundTrip(json: string, boundary: string, files: seq<Attachment>)
    requires CrFree(boundary) && forall f :: f in files ==> CrFree(f.name)
    ensures Read("--" + boundary + Rest(Parts(json, files), boundary), boundary)
              == Some([json] + seq(|files|, i requires 0 <= i < |files| => files[i].data))
       <==> BodyOk(json, boundary) && forall f :: f in files ==> BodyOk(f.data, boundary)
  {
    hide BodyOk, Rest, HeaderOk, FileParts, JsonHeader, ReadParts, Bodies, BodiesOk;
    var parts, more := Parts(json, files), FileParts(files, 0);
    FilePartsAre(files);
    FilesOk(json, files, boundary);
    ReadRest(parts, boundary);
    var s := "--" + boundary + Rest(parts, boundary);
    assert s[..2 + |boundary|] == "--" + boundary && s[2 + |boundary|..] == Rest(parts, boundary);
  }

  lemma FilesOk(json: string, files: seq<Attachment>, boundary: string)
    requires forall f :: f in files ==> CrFree(f.name)
    ensures var parts := Parts(json, files);
            && PartsOk(parts)
            && Bodies(parts) == [json] + Bodies(FileParts(files, 0))
            && (BodiesOk(parts, boundary) <==>
                  BodyOk(json, boundary) && forall f :: f in files ==> BodyOk(f.data, boundary))
  {
    hide BodyOk, HeaderOk, FileParts, JsonHeader;
    var parts, more := Parts(json, files), FileParts(files, 0);
    HeadersOk(0, "");
    FilePartsAre(files);
    assert parts == [Part(JsonHeader(), json)] + more && parts[1..] == more;
    FilesSame(files, boundary);
  }

  lemma FilesSame(files: seq<Attachment>, boundary: string)
    requires forall f :: f in files ==> CrFree(f.name)
    ensures BodiesOk(FileParts(files, 0), boundary) <==> forall f :: f in files ==> BodyOk(f.data, boundary)
  {
    hide BodyOk, HeaderOk, FileParts, Bodies;
    var more := FileParts(files, 0);
    FilePartsAre(files);
    forall f | f in files ensures exists p :: p in more && p.body == f.data {
      var k :| 0 <= k < |files| && files[k] == f;
      assert more[k] in more;
    }
    forall p | p in more ensures exists f :: f in files && f.data == p.body {
      var k :| 0 <= k < |more| && more[k] == p;
      assert files[k] in files;
    }
  }

  /** The delimiter at the very start of a body: its line break is the one before the body. */
  lemma OccursAtStart(body: string, boundary: string)
    ensures OccursAt(Delimiter(boundary), CRLF + body, 0) <==> "--" + boundary <= body
  {
    var d, s := Delimiter(boundary), CRLF + body;
    assert d == CRLF + ("--" + boundary);
    if 2 + |boundary| <= |body| {
      assert s[0..|d|] == CRLF + body[..2 + |boundary|];
      assert s[0..|d|][2..] == body[..2 + |boundary|] && d[2..] == "--" + boundary;
    }
  }

  lemma OccursShifted(body: string, boundary: string, i: nat)
    ensures OccursAt(Delimiter(boundary), CRLF + body, i + 2) <==> OccursAt(Delimiter(boundary), body, i)
  {
    var d, s := Delimiter(boundary), CRLF + body;
    if i + |d| <= |body| {
      assert s[i + 2..i + 2 + |d|] == body[i..i + |d|];
    }
  }

  /** What the condition on a body amounts to: no delimiter inside, and not the dashes and
      the boundary at its very start. */
  lemma BodyOkIs(body: string, boundary: string)
    requires CrFree(boundary)
    ensures BodyOk(body, boundary) <==> !Occurs(Delimiter(boundary), body) && !("--" + boundary <= body)
  {
    var d, s := Delimiter(boundary), CRLF + body;
    DelimiterShape(boundary);
    OccursAtStart(body, boundary);
    assert !OccursAt(d, s, 1) by { OccursChar(d, s, 1, 0); }
    hide OccursAt, Delimiter;
    if i: nat :| i <= |s| && OccursAt(d, s, i) {
      if i >= 2 { OccursShifted(body, boundary, i - 2); }
    }
    if i: nat :| i <= |body| && OccursAt(d, body, i) {
      OccursShifted(body, boundary, i);
      assert OccursAt(d, s, i + 2);
    }
  }

  /** Text without line breaks that does not start with two dashes, as every serialised JSON
      value, never disturbs the reader. */
  lemma JsonBodyOk(json: string, boundary: string)
    requires CrFree(boundary) && CrFree(json) && !("--" <= json)
    ensures BodyOk(json, boundary)
  {
    DelimiterShape(boundary);
    forall i | 0 <= i <= |json| ensures !OccursAt(Delimiter(boundary), json, i) {
      OccursChar(Delimiter(boundary), json, i, 0);
    }
    assert "--" <= "--" + boundary;
    BodyOkIs(json, boundary);
  }

  /** So form data of serialised JSON reads back if and only if no attachment disturbs it. */
  lemma FormDataReadsBack(json: string, boundary: string, files: seq<Attachment>)
    requires CrFree(boundary) && forall f :: f in files ==> CrFree(f.name)
    requires CrFree(json) && !("--" <= json)
    ensures Read("--" + boundary + Rest(Parts(json, files), boundary), boundary)
              == Some([json] + seq(|files|, i requires 0 <= i < |files| => files[i].data))
       <==> forall f :: f in files ==>
              !Occurs(Delimiter(boundary), f.data) && !("--" + boundary <= f.data)
  {
    hide BodyOk, Rest, Parts, Read, Occurs, Delimiter;
    FormDataRoundTrip(json, boundary, files);
    JsonBodyOk(json, boundary);
    forall f | f in files
      ensures BodyOk(f.data, boundary) <==>
                !Occurs(Delimiter(boundary), f.data) && !("--" + boundary <= f.data)
    {
      BodyOkIs(f.data, boundary);
    }
  }

  /** A form that does not read back: an attachment that starts with the dashes and the
      boundary that every caller passes. */
  lemma AttachmentMisread()
    ensures var files := [Attachment("cat.png", "--woof")];
            Read("--" + "woof" + Rest(Parts("{}", files), "woof"), "woof") != Some(["{}", "--woof"])
  {
    hide BodyOk, Rest, Parts, Read, Occurs;
    var files := [Attachment("cat.png", "--woof")];
    assert ["{}"] + seq(|files|, i requires 0 <= i < |files| => files[i].data) == ["{}", "--woof"];
    assert "--"[0] != "{}"[0];
    FormDataReadsBack("{}", "woof", files);
    assert "--" + "woof" <= files[0].data && files[0] in files;
  }

  // ----- the text of the headers -----

  function ValueOf(digits: string): int {
    if digits == "" then 0
    else 10 * ValueOf(digits[..|digits| - 1]) + (digits[|digits| - 1] as int - '0' as int)
  }

  /** An index is written in decimal digits, without a leading zero unless it is zero. */
  lemma {:induction false} DecimalIs(n: nat)
    ensures forall c :: c in Decimal(n) ==> '0' <= c <= '9'
    ensures ValueOf(Decimal(n)) == n && (Decimal(n)[0] == '0' ==> n == 0)
  {
    if n >= 10 {
      DecimalIs(n / 10);
      var init, last := Decimal(n / 10), ['0' + (n % 10) as char];
      assert Decimal(n) == init + last && Decimal(n)[..|Decimal(n)| - 1] == init;
    } else {
      assert Decimal(n)[..0] == "";
    }
  }

  /** The headers of the JSON and of an attachment, in full. */
  lemma JsonHeaderText()
    ensures JsonHeader()
         == "Content-Disposition: form-data; name=\"payload_json\"" + "\r\n" + "Content-Type: application/json"
  {
  }

  lemma FileHeaderText(i: nat, name: string)
    ensures FileHeader(i, name)
         == "Content-Disposition: form-data; name=\"files[" + Decimal(i) + "]\"; filename=\"" + name + "\""
  {
  }
}

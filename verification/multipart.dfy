/**
 * VolleyMultipartRequest: the `multipart/form-data` body of an upload (section 4 of RFC 7578),
 * framed by the boundary delimiters of section 5.1.1 of RFC 2046.
 *
 * The body is a sequence of bytes built by appending to a buffer. Header text goes through
 * `DataOutputStream.writeBytes`, which keeps the low eight bits of each character.
 */
module Multipart {
  import opened Wrappers
  import opened Text

  newtype byte = x: int | 0 <= x < 256

  /** `writeBytes(s)`: one byte per character, its low eight bits. */
  function LowBytes(s: string): (r: seq<byte>)
    ensures |r| == |s|
  {
    seq(|s|, i requires 0 <= i < |s| => (s[i] as int % 256) as byte)
  }

  /** Each byte `writeBytes` emits is the code of its character modulo 256. */
  lemma LowBytesLowEightBits(s: string)
    ensures forall i :: 0 <= i < |s| ==> LowBytes(s)[i] as int == s[i] as int % 256
  {
  }

  /** The ISO 8859-1 reading of a byte sequence: each byte is the character with that code. */
  function Latin1(bs: seq<byte>): (r: string)
    ensures |r| == |bs|
  {
    seq(|bs|, i requires 0 <= i < |bs| => bs[i] as int as char)
  }

  /** Writing the Latin-1 reading of any bytes gives back those bytes. */
  lemma LowBytesOfLatin1(bs: seq<byte>)
    ensures LowBytes(Latin1(bs)) == bs
  {
  }

  /** A text of characters below 256 survives `writeBytes` and is read back as it was. */
  lemma Latin1OfLowBytes(s: string)
    requires forall i :: 0 <= i < |s| ==> s[i] as int < 256
    ensures Latin1(LowBytes(s)) == s
  {
  }

  lemma LowBytesAppend(s: string, t: string)
    ensures LowBytes(s + t) == LowBytes(s) + LowBytes(t)
  {
  }

  // ---------------------------------------------------------------- boundary and content type

  /** The boundary of a request created at `millis`: "apiclient-" and the decimal milliseconds. */
  function Boundary(millis: nat): (b: string)
    ensures |b| > 10 && b[..10] == "apiclient-"
    ensures forall i :: 10 <= i < |b| ==> '0' <= b[i] <= '9'
    ensures DigitsValue(b[10..]) == millis
  {
    var digits := NatToString(millis);
    NatToStringRoundTrip(millis);
    assert ("apiclient-" + digits)[10..] == digits;
    "apiclient-" + digits
  }

  /** The boundary uses only letters, digits and '-', all allowed by RFC 2046, so no CR, LF or quote. */
  lemma BoundaryChars(millis: nat)
    ensures forall i :: 0 <= i < |Boundary(millis)| ==>
              var c := Boundary(millis)[i]; ('a' <= c <= 'z') || ('0' <= c <= '9') || c == '-'
  {
    var b := Boundary(millis);
    forall i | 0 <= i < |b|
      ensures ('a' <= b[i] <= 'z') || ('0' <= b[i] <= '9') || b[i] == '-'
    {
      if i >= 10 {
        assert b[i] == NatToString(millis)[i - 10];
      }
    }
  }

  const FormDataPrefix: string := "multipart/form-data;boundary="

  /** `getBodyContentType`. */
  function ContentType(boundary: string): (r: string)
    ensures |r| == |FormDataPrefix| + |boundary|
    ensures r[..|FormDataPrefix|] == FormDataPrefix && r[|FormDataPrefix|..] == boundary
  {
    FormDataPrefix + boundary
  }

  /** The boundary parameter of a content type of the form `ContentType` writes. */
  function BoundaryOf(contentType: string): (r: Option<string>)
    ensures r.Some? ==> |FormDataPrefix| <= |contentType| && contentType[..|FormDataPrefix|] == FormDataPrefix
  {
    if |FormDataPrefix| <= |contentType| && contentType[..|FormDataPrefix|] == FormDataPrefix then
      Some(contentType[|FormDataPrefix|..])
    else None
  }

  /** The receiver finds exactly the boundary the body was framed with, and nothing else parses. */
  lemma ContentTypeRoundTrip(boundary: string, contentType: string)
    ensures BoundaryOf(ContentType(boundary)) == Some(boundary)
    ensures BoundaryOf(contentType) == Some(boundary) ==> ContentType(boundary) == contentType
  {
    if BoundaryOf(contentType) == Some(boundary) {
      assert contentType == contentType[..|FormDataPrefix|] + contentType[|FormDataPrefix|..];
    }
  }

  // ---------------------------------------------------------------- parts

  /** A file to upload; the media type defaults to "application/octet-stream". */
  datatype DataPart = DataPart(fileName: string, content: seq<byte>, mediaType: string := "application/octet-stream")

  /** A part created without a media type is sent as "application/octet-stream". */
  lemma DataPartDefaultType(fileName: string, content: seq<byte>)
    ensures DataPart(fileName, content).mediaType == "application/octet-stream"
  {
  }

  const Crlf: seq<byte> := LowBytes("\r\n")

  /** The line that opens every part: dash-boundary and CRLF. */
  function DashLine(boundary: string): (r: seq<byte>)
    ensures |r| == |boundary| + 4
    ensures r[..2] == LowBytes("--") && r[|r| - 2..] == Crlf
  {
    LowBytes("--" + boundary + "\r\n")
  }

  /** The close delimiter that ends the body. */
  function CloseDelimiter(boundary: string): (r: seq<byte>)
    ensures r == LowBytes("--" + boundary + "--") + Crlf
  {
    LowBytes("--" + boundary + "--\r\n")
  }

  /** `buildPart`: the dash line, the two part headers, a blank line, the content, and CRLF. */
  function FilePart(boundary: string, paramName: string, dataFile: DataPart): (r: seq<byte>)
    ensures |r| >= |DashLine(boundary)| + |dataFile.content| + 2
  {
    DashLine(boundary)
    + LowBytes("Content-Disposition: form-data; name=\"" + paramName + "\"; filename=\"" + dataFile.fileName + "\"\r\n")
    + LowBytes("Content-Type: " + dataFile.mediaType + "\r\n\r\n")
    + dataFile.content + Crlf
  }

  /** The layout both kinds of part share: a head, a header ending in `blank`, the content, CRLF. */
  lemma PartLayout(head: seq<byte>, header: seq<byte>, blank: seq<byte>, content: seq<byte>, crlf: seq<byte>)
    ensures var r := head + (header + blank) + content + crlf;
      && r[..|head|] == head
      && r[|r| - |crlf|..] == crlf
      && r[|r| - |crlf| - |content|..|r| - |crlf|] == content
      && r[|r| - |crlf| - |content| - |blank|..|r| - |crlf| - |content|] == blank
  {
  }

  /** A file part opens with the dash line and ends with a blank line, the content and CRLF. */
  lemma FilePartFramed(boundary: string, paramName: string, dataFile: DataPart)
    ensures var r := FilePart(boundary, paramName, dataFile);
      && r[..|DashLine(boundary)|] == DashLine(boundary)
      && r[|r| - 2..] == Crlf
      && r[|r| - 2 - |dataFile.content|..|r| - 2] == dataFile.content
      && r[|r| - 6 - |dataFile.content|..|r| - 2 - |dataFile.content|] == LowBytes("\r\n\r\n")
  {
    var d := DashLine(boundary);
    var h1 := LowBytes("Content-Disposition: form-data; name=\"" + paramName + "\"; filename=\"" + dataFile.fileName + "\"\r\n");
    var h2 := "Content-Type: " + dataFile.mediaType;
    LowBytesAppend(h2, "\r\n\r\n");
    PartLayout(d + h1, LowBytes(h2), LowBytes("\r\n\r\n"), dataFile.content, Crlf);
    assert (d + h1)[..|d|] == d;
  }

  /** `buildTextPart`: the dash line, the disposition header, a blank line, the value, and CRLF. */
  function TextPart(boundary: string, paramName: string, value: string): (r: seq<byte>)
    ensures |r| >= |DashLine(boundary)| + |value| + 2
  {
    DashLine(boundary)
    + LowBytes("Content-Disposition: form-data; name=\"" + paramName + "\"\r\n\r\n")
    + LowBytes(value) + Crlf
  }

  /** A text part opens with the dash line and ends with a blank line, the value and CRLF. */
  lemma TextPartFramed(boundary: string, paramName: string, value: string)
    ensures var r := TextPart(boundary, paramName, value);
      && r[..|DashLine(boundary)|] == DashLine(boundary)
      && r[|r| - 2..] == Crlf
      && r[|r| - 2 - |value|..|r| - 2] == LowBytes(value)
      && r[|r| - 6 - |value|..|r| - 2 - |value|] == LowBytes("\r\n\r\n")
  {
    var h := "Content-Disposition: form-data; name=\"" + paramName + "\"";
    LowBytesAppend(h, "\r\n\r\n");
    PartLayout(DashLine(boundary), LowBytes(h), LowBytes("\r\n\r\n"), LowBytes(value), Crlf);
  }

  /** The file parts, in the iteration order of `getByteData`. */
  function FileParts(boundary: string, files: seq<(string, DataPart)>): (r: seq<seq<byte>>)
    ensures |r| == |files|
  {
    if files == [] then []
    else FileParts(boundary, files[..|files| - 1]) + [FilePart(boundary, files[|files| - 1].0, files[|files| - 1].1)]
  }

  /** The text parts, in the iteration order of `getParams`. */
  function TextParts(boundary: string, params: seq<(string, string)>): (r: seq<seq<byte>>)
    ensures |r| == |params|
  {
    if params == [] then []
    else TextParts(boundary, params[..|params| - 1]) + [TextPart(boundary, params[|params| - 1].0, params[|params| - 1].1)]
  }

  /** The parts of a body in the order `getBody` writes them: the files, then the text fields. */
  function Parts(boundary: string, files: seq<(string, DataPart)>, params: seq<(string, string)>): (r: seq<seq<byte>>)
    ensures |r| == |files| + |params|
  {
    FileParts(boundary, files) + TextParts(boundary, params)
  }

  /** Part `i` of the body is the `i`-th file, or after the files, the matching text field. */
  lemma {:induction false} PartsAt(boundary: string, files: seq<(string, DataPart)>, params: seq<(string, string)>, i: nat)
    requires i < |files| + |params|
    ensures i < |files| ==> Parts(boundary, files, params)[i] == FilePart(boundary, files[i].0, files[i].1)
    ensures i >= |files| ==> Parts(boundary, files, params)[i] == TextPart(boundary, params[i - |files|].0, params[i - |files|].1)
  {
    if i < |files| {
      FilePartsAt(boundary, files, i);
    } else {
      TextPartsAt(boundary, params, i - |files|);
    }
  }

  lemma {:induction false} FilePartsAt(boundary: string, files: seq<(string, DataPart)>, i: nat)
    requires i < |files|
    ensures FileParts(boundary, files)[i] == FilePart(boundary, files[i].0, files[i].1)
  {
    var n := |files| - 1;
    if i < n {
      FilePartsAt(boundary, files[..n], i);
    }
  }

  lemma {:induction false} TextPartsAt(boundary: string, params: seq<(string, string)>, i: nat)
    requires i < |params|
    ensures TextParts(boundary, params)[i] == TextPart(boundary, params[i].0, params[i].1)
  {
    var n := |params| - 1;
    if i < n {
      TextPartsAt(boundary, params[..n], i);
    }
  }

  function Concat(parts: seq<seq<byte>>): (r: seq<byte>)
    ensures parts == [] ==> r == []
  {
    if parts == [] then [] else Concat(parts[..|parts| - 1]) + parts[|parts| - 1]
  }

  /** Concatenating two runs of parts is concatenating their bytes. */
  lemma {:induction false} ConcatJoin(a: seq<seq<byte>>, b: seq<seq<byte>>)
    ensures Concat(a + b) == Concat(a) + Concat(b)
  {
    if b != [] {
      var n := |b| - 1;
      ConcatJoin(a, b[..n]);
      assert (a + b)[..|a + b| - 1] == a + b[..n];
    } else {
      assert a + b == a;
    }
  }

  /** Appending a concatenation is appending its pieces one after another. */
  lemma AppendAssoc(a: seq<byte>, b: seq<byte>, c: seq<byte>)
    ensures a + (b + c) == a + b + c
  {
  }

  /** One more file part appends its bytes to the concatenation of the earlier ones. */
  lemma FilePartsSnoc(boundary: string, files: seq<(string, DataPart)>, i: nat)
    requires i < |files|
    ensures Concat(FileParts(boundary, files[..i + 1]))
         == Concat(FileParts(boundary, files[..i])) + FilePart(boundary, files[i].0, files[i].1)
  {
    assert files[..i + 1][..i] == files[..i];
  }

  /** One more text field appends its bytes to the concatenation of the earlier ones. */
  lemma TextPartsSnoc(boundary: string, params: seq<(string, string)>, i: nat)
    requires i < |params|
    ensures Concat(TextParts(boundary, params[..i + 1]))
         == Concat(TextParts(boundary, params[..i])) + TextPart(boundary, params[i].0, params[i].1)
  {
    assert params[..i + 1][..i] == params[..i];
  }

  /** The byte offset at which part `i` starts. */
  function Offset(parts: seq<seq<byte>>, i: nat): (o: nat)
    requires i <= |parts|
    ensures o == |Concat(parts[..i])|
  {
    |Concat(parts[..i])|
  }

  /** The body `getBody` returns: every part, then the close delimiter. */
  function Body(boundary: string, files: seq<(string, DataPart)>, params: seq<(string, string)>): (r: seq<byte>)
    ensures |r| >= |CloseDelimiter(boundary)|
    ensures r[|r| - |CloseDelimiter(boundary)|..] == CloseDelimiter(boundary)
  {
    Concat(Parts(boundary, files, params)) + CloseDelimiter(boundary)
  }

  /** The body is the file parts, then the text parts, then the close delimiter. */
  lemma BodySplit(boundary: string, files: seq<(string, DataPart)>, params: seq<(string, string)>)
    ensures Body(boundary, files, params)
         == Concat(FileParts(boundary, files)) + Concat(TextParts(boundary, params)) + LowBytes("--" + boundary + "--\r\n")
  {
    ConcatJoin(FileParts(boundary, files), TextParts(boundary, params));
  }

  /** With no file and no text field the body is just the close delimiter. */
  lemma EmptyBody(boundary: string)
    ensures Body(boundary, [], []) == CloseDelimiter(boundary)
  {
    assert Parts(boundary, [], []) == [];
  }

  /** Part `i` sits in the concatenation at its offset, followed by the next part. */
  lemma {:induction false} ConcatAt(parts: seq<seq<byte>>, i: nat)
    requires i < |parts|
    ensures Offset(parts, i) + |parts[i]| == Offset(parts, i + 1) <= |Concat(parts)|
    ensures Concat(parts)[Offset(parts, i)..Offset(parts, i + 1)] == parts[i]
  {
    var n := |parts| - 1;
    assert parts[..i + 1][..i] == parts[..i];
    if i < n {
      ConcatAt(parts[..n], i);
      assert parts[..n][..i] == parts[..i];
      assert parts[..n][..i + 1] == parts[..i + 1];
      assert parts[..n][i] == parts[i];
    } else {
      assert parts[..i + 1] == parts;
    }
  }

  /** Every part, file or text, opens with the dash line and ends with CRLF. */
  lemma PartFramed(boundary: string, files: seq<(string, DataPart)>, params: seq<(string, string)>, i: nat)
    requires i < |files| + |params|
    ensures var p := Parts(boundary, files, params)[i];
      && |p| >= |DashLine(boundary)| + 2
      && p[..|DashLine(boundary)|] == DashLine(boundary)
      && p[|p| - 2..] == Crlf
  {
    PartsAt(boundary, files, params, i);
    if i < |files| {
      FilePartFramed(boundary, files[i].0, files[i].1);
    } else {
      TextPartFramed(boundary, params[i - |files|].0, params[i - |files|].1);
    }
  }

  /** Each part opens with `open` and ends with CRLF. */
  ghost predicate AllFramed(parts: seq<seq<byte>>, open: seq<byte>)
  {
    forall k :: 0 <= k < |parts| ==>
      |parts[k]| >= |open| + 2 && parts[k][..|open|] == open && parts[k][|parts[k]| - 2..] == Crlf
  }

  /** In a concatenation of framed parts, each part's opening is preceded by the previous part's CRLF. */
  lemma ConcatFramed(parts: seq<seq<byte>>, open: seq<byte>, i: nat)
    requires AllFramed(parts, open) && i < |parts|
    ensures var c := Concat(parts); var o := Offset(parts, i);
      && o + |open| <= |c| && c[o..o + |open|] == open
      && (i > 0 ==> 2 <= o && c[o - 2..o] == Crlf)
  {
    var c := Concat(parts);
    ConcatAt(parts, i);
    var o := Offset(parts, i);
    assert c[o..Offset(parts, i + 1)] == parts[i];
    assert c[o..o + |open|] == parts[i][..|open|];
    if i > 0 {
      ConcatAt(parts, i - 1);
      var p := Offset(parts, i - 1);
      assert c[p..o] == parts[i - 1];
      assert c[o - 2..o] == parts[i - 1][|parts[i - 1]| - 2..];
    }
  }

  lemma PartsFramed(boundary: string, files: seq<(string, DataPart)>, params: seq<(string, string)>)
    ensures AllFramed(Parts(boundary, files, params), DashLine(boundary))
  {
    forall i | 0 <= i < |files| + |params|
      ensures var p := Parts(boundary, files, params)[i];
        |p| >= |DashLine(boundary)| + 2 && p[..|DashLine(boundary)|] == DashLine(boundary) && p[|p| - 2..] == Crlf
    {
      PartFramed(boundary, files, params, i);
    }
  }

  /**
   * Section 5.1.1 of RFC 2046: each part starts with dash-boundary, and every delimiter after
   * the first is preceded by CRLF.
   */
  lemma DelimitersFramed(boundary: string, files: seq<(string, DataPart)>, params: seq<(string, string)>, i: nat)
    requires i < |files| + |params|
    ensures var parts := Parts(boundary, files, params);
      var body := Body(boundary, files, params);
      var o := Offset(parts, i);
      && o + |DashLine(boundary)| <= |body|
      && body[o..o + |DashLine(boundary)|] == DashLine(boundary)
      && (i > 0 ==> 2 <= o && body[o - 2..o] == Crlf)
  {
    var parts := Parts(boundary, files, params);
    PartsFramed(boundary, files, params);
    ConcatFramed(parts, DashLine(boundary), i);
  }

  /** When there is at least one part, the close delimiter is preceded by CRLF. */
  lemma CloseFramed(boundary: string, files: seq<(string, DataPart)>, params: seq<(string, string)>)
    requires |files| + |params| > 0
    ensures var body := Body(boundary, files, params);
      var at := |body| - |CloseDelimiter(boundary)|;
      at >= 2 && body[at - 2..at] == Crlf
  {
    var parts := Parts(boundary, files, params);
    var n := |parts| - 1;
    var c := Concat(parts);
    var body := Body(boundary, files, params);
    assert body == c + CloseDelimiter(boundary);
    ConcatAt(parts, n);
    PartFramed(boundary, files, params, n);
    assert parts[..n + 1] == parts;
    var o := Offset(parts, n);
    assert c[o..|c|] == parts[n];
    assert body[|c| - 2..|c|] == c[|c| - 2..] == parts[n][|parts[n]| - 2..];
  }

  // ---------------------------------------------------------------- the buffer and the request

  /** The `ByteArrayOutputStream` behind a `DataOutputStream`: the bytes written so far. */
  class ByteSink {
    var bytes: seq<byte>

    constructor ()
      ensures bytes == []
    {
      bytes := [];
    }

    /** `writeBytes(s)`. */
    method WriteBytes(s: string)
      modifies this
      ensures bytes == old(bytes) + LowBytes(s)
    {
      bytes := bytes + LowBytes(s);
    }

    /** `write(content)`. */
    method Write(content: seq<byte>)
      modifies this
      ensures bytes == old(bytes) + content
    {
      bytes := bytes + content;
    }
  }

  class MultipartRequest {
    const boundary: string

    /** The request is stamped with the clock reading `millis` when it is created. */
    constructor (millis: nat)
      ensures boundary == Boundary(millis)
    {
      boundary := Boundary(millis);
    }

    /** `getBodyContentType`: the receiver reads back this request's boundary. */
    function GetBodyContentType(): (r: string)
      ensures BoundaryOf(r) == Some(boundary)
    {
      ContentTypeRoundTrip(boundary, "");
      ContentType(boundary)
    }

    /** `buildPart`: appends one file part. */
    method BuildPart(dos: ByteSink, paramName: string, dataFile: DataPart)
      modifies dos
      ensures dos.bytes == old(dos.bytes) + FilePart(boundary, paramName, dataFile)
    {
      ghost var start := dos.bytes;
      dos.WriteBytes("--" + boundary + "\r\n");
      ghost var d := LowBytes("--" + boundary + "\r\n");
      dos.WriteBytes("Content-Disposition: form-data; name=\"" + paramName + "\"; filename=\"" + dataFile.fileName + "\"\r\n");
      ghost var h1 := LowBytes("Content-Disposition: form-data; name=\"" + paramName + "\"; filename=\"" + dataFile.fileName + "\"\r\n");
      AppendAssoc(start, d, h1);
      dos.WriteBytes("Content-Type: " + dataFile.mediaType + "\r\n\r\n");
      ghost var h2 := LowBytes("Content-Type: " + dataFile.mediaType + "\r\n\r\n");
      AppendAssoc(start, d + h1, h2);
      dos.Write(dataFile.content);
      AppendAssoc(start, d + h1 + h2, dataFile.content);
      dos.WriteBytes("\r\n");
      AppendAssoc(start, d + h1 + h2 + dataFile.content, Crlf);
    }

    /** `buildTextPart`: appends one text field. */
    method BuildTextPart(dos: ByteSink, paramName: string, value: string)
      modifies dos
      ensures dos.bytes == old(dos.bytes) + TextPart(boundary, paramName, value)
    {
      ghost var start := dos.bytes;
      dos.WriteBytes("--" + boundary + "\r\n");
      ghost var d := LowBytes("--" + boundary + "\r\n");
      dos.WriteBytes("Content-Disposition: form-data; name=\"" + paramName + "\"\r\n\r\n");
      ghost var h := LowBytes("Content-Disposition: form-data; name=\"" + paramName + "\"\r\n\r\n");
      AppendAssoc(start, d, h);
      dos.WriteBytes(value);
      AppendAssoc(start, d + h, LowBytes(value));
      dos.WriteBytes("\r\n");
      AppendAssoc(start, d + h + LowBytes(value), Crlf);
    }

    /** The first loop of `getBody`: the file parts, in order. */
    method WriteFileParts(dos: ByteSink, byteData: seq<(string, DataPart)>)
      modifies dos
      ensures dos.bytes == old(dos.bytes) + Concat(FileParts(boundary, byteData))
    {
      var i := 0;
      while i < |byteData|
        invariant 0 <= i <= |byteData|
        invariant dos.bytes == old(dos.bytes) + Concat(FileParts(boundary, byteData[..i]))
      {
        BuildPart(dos, byteData[i].0, byteData[i].1);
        FilePartsSnoc(boundary, byteData, i);
        AppendAssoc(old(dos.bytes), Concat(FileParts(boundary, byteData[..i])), FilePart(boundary, byteData[i].0, byteData[i].1));
        i := i + 1;
      }
      assert byteData[..i] == byteData;
    }

    /** The second loop of `getBody`: the text fields, in order. */
    method WriteTextParts(dos: ByteSink, fields: seq<(string, string)>)
      modifies dos
      ensures dos.bytes == old(dos.bytes) + Concat(TextParts(boundary, fields))
    {
      var j := 0;
      while j < |fields|
        invariant 0 <= j <= |fields|
        invariant dos.bytes == old(dos.bytes) + Concat(TextParts(boundary, fields[..j]))
      {
        BuildTextPart(dos, fields[j].0, fields[j].1);
        TextPartsSnoc(boundary, fields, j);
        AppendAssoc(old(dos.bytes), Concat(TextParts(boundary, fields[..j])), TextPart(boundary, fields[j].0, fields[j].1));
        j := j + 1;
      }
      assert fields[..j] == fields;
    }

    /**
     * `getBody`, given what `getByteData` and `getParams` return (`None` for a null map),
     * each in its iteration order.
     */
    method GetBody(byteData: seq<(string, DataPart)>, params: Option<seq<(string, string)>>) returns (body: seq<byte>)
      ensures body == Body(boundary, byteData, params.GetOr([]))
    {
      var fields := params.GetOr([]);
      var dos := new ByteSink();
      WriteFileParts(dos, byteData);
      assert [] + Concat(FileParts(boundary, byteData)) == Concat(FileParts(boundary, byteData));
      WriteTextParts(dos, fields);
      dos.WriteBytes("--" + boundary + "--\r\n");
      body := dos.bytes;
      BodySplit(boundary, byteData, fields);
    }
  }
}

/**
 * The multipart/form-data request body that `uploadProductToServer` sends (RFC 7578,
 * section 4.2, with the boundary delimiters of RFC 2046, section 5.1.1): four text parts
 * `product_name`, `price`, `tax`, `product_type`, an optional `files[]` part carrying the
 * JPEG bytes, and the closing delimiter. The boundary and the JPEG bytes are parameters.
 */
module Multipart {
  import opened Wrappers
  import opened Utf8

  /** The four text fields of a product submission, as the form holds them. */
  datatype Fields = Fields(productName: string, price: string, tax: string, productType: string)

  /** One body part: a text field, or a file with its name and media type. */
  datatype Part =
    | Text(name: string, value: string)
    | File(name: string, filename: string, contentType: string, content: seq<Byte>)

  const ImageFilename := "product.jpg"
  const ImageMimeType := "image/jpeg"

  /** The dash-boundary line that opens every part. */
  function Delimiter(boundary: string): (r: string) {
    "--" + boundary + "\r\n"
  }

  /** The close-delimiter line that ends the body. */
  function CloseDelimiter(boundary: string): (r: string) {
    "--" + boundary + "--\r\n"
  }

  /** The header line block of a text part, up to and including the blank line. */
  function TextHeader(name: string): (r: string) {
    "Content-Disposition: form-data; name=\"" + name + "\"\r\n\r\n"
  }

  /** The disposition line of a file part. */
  function FileDisposition(name: string, filename: string): (r: string) {
    "Content-Disposition: form-data; name=\"" + name + "\"; filename=\"" + filename + "\"\r\n"
  }

  /** The media type line of a file part, with the blank line that ends the headers. */
  function FileContentType(contentType: string): (r: string) {
    "Content-Type: " + contentType + "\r\n\r\n"
  }

  /** The header line block of a file part, up to and including the blank line. */
  function FileHeader(name: string, filename: string, contentType: string): (r: string) {
    FileDisposition(name, filename) + FileContentType(contentType)
  }

  /** The bytes of one part: delimiter, headers, content, line break. */
  function PartBytes(boundary: string, p: Part): (r: seq<Byte>) {
    match p
    case Text(name, value) =>
      Encode(Delimiter(boundary) + TextHeader(name) + value + "\r\n")
    case File(name, filename, contentType, content) =>
      Encode(Delimiter(boundary) + FileHeader(name, filename, contentType)) + content + Encode("\r\n")
  }

  /** The parts' bytes, one after the other. */
  function SerializeParts(boundary: string, parts: seq<Part>): (r: seq<Byte>) {
    if parts == [] then [] else PartBytes(boundary, parts[0]) + SerializeParts(boundary, parts[1..])
  }

  /** The parts of a product submission, in the order the builders append them. */
  function ProductParts(f: Fields, jpeg: Option<seq<Byte>>): (r: seq<Part>) {
    var text := [Text("product_name", f.productName), Text("price", f.price),
                 Text("tax", f.tax), Text("product_type", f.productType)];
    match jpeg
    case None => text
    case Some(bytes) => text + [File("files[]", ImageFilename, ImageMimeType, bytes)]
  }

  /** The whole request body: the product's parts, then the close delimiter. */
  function EncodeBody(boundary: string, f: Fields, jpeg: Option<seq<Byte>>): (r: seq<Byte>) {
    SerializeParts(boundary, ProductParts(f, jpeg)) + Encode(CloseDelimiter(boundary))
  }

  /** The body text before any file part, written out line by line. */
  function TextSection(boundary: string, f: Fields): (r: string) {
    (Delimiter(boundary) + TextHeader("product_name") + f.productName + "\r\n")
    + (Delimiter(boundary) + TextHeader("price") + f.price + "\r\n")
    + (Delimiter(boundary) + TextHeader("tax") + f.tax + "\r\n")
    + (Delimiter(boundary) + TextHeader("product_type") + f.productType + "\r\n")
  }

  /** The head of the image part, written out line by line. */
  function ImageHead(boundary: string): (r: string) {
    Delimiter(boundary) + FileHeader("files[]", ImageFilename, ImageMimeType)
  }

  /**
   * The parts are the four text fields in the fixed order, followed by a `files[]` part named
   * `product.jpg` of type `image/jpeg` carrying exactly the JPEG bytes, present iff there are bytes.
   */
  lemma ProductPartsShape(f: Fields, jpeg: Option<seq<Byte>>)
    ensures var ps := ProductParts(f, jpeg);
      |ps| == (if jpeg.Some? then 5 else 4)
      && ps[0] == Text("product_name", f.productName) && ps[1] == Text("price", f.price)
      && ps[2] == Text("tax", f.tax) && ps[3] == Text("product_type", f.productType)
      && (forall i :: 0 <= i < |ps| ==> (ps[i].File? <==> i == 4))
      && (jpeg.Some? ==> ps[4] == File("files[]", "product.jpg", "image/jpeg", jpeg.value))
  {
  }

  /** Serializing a concatenation of part lists concatenates their serializations. */
  lemma {:induction false} SerializeAppend(boundary: string, a: seq<Part>, b: seq<Part>)
    ensures SerializeParts(boundary, a + b) == SerializeParts(boundary, a) + SerializeParts(boundary, b)
  {
    if a == [] {
      assert a + b == b;
    } else {
      assert (a + b)[0] == a[0];
      assert (a + b)[1..] == a[1..] + b;
      SerializeAppend(boundary, a[1..], b);
    }
  }

  /** A text part's bytes are the bytes of its three appended lines. */
  lemma TextPartLines(boundary: string, name: string, value: string)
    ensures PartBytes(boundary, Text(name, value))
         == Encode(Delimiter(boundary)) + Encode(TextHeader(name)) + Encode(value + "\r\n")
  {
    assert Delimiter(boundary) + TextHeader(name) + value + "\r\n"
        == Delimiter(boundary) + TextHeader(name) + (value + "\r\n");
    EncodeAppend(Delimiter(boundary) + TextHeader(name), value + "\r\n");
    EncodeAppend(Delimiter(boundary), TextHeader(name));
  }

  /** The four text parts are exactly the text section. */
  lemma TextPartsAreTextSection(boundary: string, f: Fields)
    ensures SerializeParts(boundary, ProductParts(f, None)) == Encode(TextSection(boundary, f))
  {
    var d := Delimiter(boundary);
    var s1 := d + TextHeader("product_name") + f.productName + "\r\n";
    var s2 := d + TextHeader("price") + f.price + "\r\n";
    var s3 := d + TextHeader("tax") + f.tax + "\r\n";
    var s4 := d + TextHeader("product_type") + f.productType + "\r\n";
    calc {
      SerializeParts(boundary, ProductParts(f, None));
      == { FourTextParts(boundary, f); }
      Encode(s1) + Encode(s2) + Encode(s3) + Encode(s4);
      == { EncodeAppend(s1 + s2 + s3, s4); EncodeAppend(s1 + s2, s3); EncodeAppend(s1, s2); }
      Encode(s1 + s2 + s3 + s4);
      Encode(TextSection(boundary, f));
    }
  }

  /** Without image bytes the body is exactly the text section followed by the close delimiter. */
  lemma EncodeBodyWithoutImage(boundary: string, f: Fields)
    ensures EncodeBody(boundary, f, None) == Encode(TextSection(boundary, f) + CloseDelimiter(boundary))
  {
    TextPartsAreTextSection(boundary, f);
    EncodeAppend(TextSection(boundary, f), CloseDelimiter(boundary));
  }

  /** With image bytes, the parts serialize as the text parts followed by the image part. */
  lemma ImagePartLast(boundary: string, f: Fields, jpeg: seq<Byte>)
    ensures SerializeParts(boundary, ProductParts(f, Some(jpeg)))
         == SerializeParts(boundary, ProductParts(f, None))
            + PartBytes(boundary, File("files[]", ImageFilename, ImageMimeType, jpeg))
  {
    var text := ProductParts(f, None);
    var file := File("files[]", ImageFilename, ImageMimeType, jpeg);
    assert ProductParts(f, Some(jpeg)) == text + [file];
    SerializeAppend(boundary, text, [file]);
    assert SerializeParts(boundary, [file]) == PartBytes(boundary, file) + [];
  }

  /**
   * With image bytes the body is exactly the text section and the image part's head, the raw
   * bytes, then a line break and the close delimiter.
   */
  lemma EncodeBodyWithImage(boundary: string, f: Fields, jpeg: seq<Byte>)
    ensures EncodeBody(boundary, f, Some(jpeg))
         == Encode(TextSection(boundary, f) + ImageHead(boundary)) + jpeg
            + Encode("\r\n" + CloseDelimiter(boundary))
  {
    var text := Encode(TextSection(boundary, f));
    var head := Encode(ImageHead(boundary));
    var crlf := Encode("\r\n");
    var close := Encode(CloseDelimiter(boundary));
    calc {
      EncodeBody(boundary, f, Some(jpeg));
      == { ImagePartLast(boundary, f, jpeg); TextPartsAreTextSection(boundary, f); }
      text + (head + jpeg + crlf) + close;
      == { assert text + (head + jpeg + crlf) == text + head + jpeg + crlf; }
      text + head + jpeg + crlf + close;
      == { EncodeAppend(TextSection(boundary, f), ImageHead(boundary)); }
      Encode(TextSection(boundary, f) + ImageHead(boundary)) + jpeg + crlf + close;
      == { EncodeAppend("\r\n", CloseDelimiter(boundary)); }
      Encode(TextSection(boundary, f) + ImageHead(boundary)) + jpeg + Encode("\r\n" + CloseDelimiter(boundary));
    }
  }

  /** `s` begins with the bytes `p`. */
  predicate StartsWith(s: seq<Byte>, p: seq<Byte>) {
    |p| <= |s| && s[..|p|] == p
  }

  /** Appending to a sequence keeps what it starts with. */
  lemma StartsWithAppend(s: seq<Byte>, p: seq<Byte>, t: seq<Byte>)
    requires StartsWith(s, p)
    ensures StartsWith(s + t, p)
  {
    assert (s + t)[..|p|] == s[..|p|];
  }

  /** Every part, text or file, opens with the delimiter line. */
  lemma PartOpensWithDelimiter(boundary: string, p: Part)
    ensures StartsWith(PartBytes(boundary, p), Encode(Delimiter(boundary)))
  {
    var open := Encode(Delimiter(boundary));
    assert StartsWith(open, open);
    match p
    case Text(name, value) =>
      TextPartLines(boundary, name, value);
      StartsWithAppend(open, open, Encode(TextHeader(name)));
      StartsWithAppend(open + Encode(TextHeader(name)), open, Encode(value + "\r\n"));
    case File(name, filename, contentType, content) =>
      var head := Encode(Delimiter(boundary) + FileHeader(name, filename, contentType));
      EncodeAppend(Delimiter(boundary), FileHeader(name, filename, contentType));
      StartsWithAppend(open, open, Encode(FileHeader(name, filename, contentType)));
      StartsWithAppend(head, open, content);
      StartsWithAppend(head + content, open, Encode("\r\n"));
  }

  /** Every body opens with the first part's delimiter line. */
  lemma BodyOpensWithDelimiter(boundary: string, f: Fields, jpeg: Option<seq<Byte>>)
    ensures StartsWith(EncodeBody(boundary, f, jpeg), Encode(Delimiter(boundary)))
  {
    var parts := ProductParts(f, jpeg);
    var open := Encode(Delimiter(boundary));
    var first := PartBytes(boundary, parts[0]);
    PartOpensWithDelimiter(boundary, parts[0]);
    assert SerializeParts(boundary, parts) == first + SerializeParts(boundary, parts[1..]);
    StartsWithAppend(first, open, SerializeParts(boundary, parts[1..]));
    StartsWithAppend(SerializeParts(boundary, parts), open, Encode(CloseDelimiter(boundary)));
  }

  /** Every body ends with the close-delimiter line. */
  lemma BodyEndsWithCloseDelimiter(boundary: string, f: Fields, jpeg: Option<seq<Byte>>)
    ensures var body := EncodeBody(boundary, f, jpeg);
      var close := Encode(CloseDelimiter(boundary));
      |close| <= |body| && body[|body| - |close|..] == close
  {
  }

  /**
   * The body builder of `uploadProductToServer`: `appendProductToBody` appends the four
   * text parts, then the image part when there are JPEG bytes, then the close delimiter,
   * each as a `Data.append(String)` or `Data.append(Data)` on the growing body.
   */
  method BuildUploadBody(boundary: string, f: Fields, jpeg: Option<seq<Byte>>) returns (body: seq<Byte>)
    ensures body == EncodeBody(boundary, f, jpeg)
  {
    body := AppendProductToBody([], boundary, f);
    ghost var text := SerializeParts(boundary, ProductParts(f, None));
    assert body == text;
    if jpeg.Some? {
      var filename := ImageFilename;
      var mimetype := ImageMimeType;
      body := AppendFilePart(body, boundary, "files[]", filename, mimetype, jpeg.value);
      ImagePartLast(boundary, f, jpeg.value);
    }
    assert body == SerializeParts(boundary, ProductParts(f, jpeg));
    body := Append(body, CloseDelimiter(boundary));
  }

  /** Appends a file part: delimiter, disposition and type lines, the raw bytes, a line break. */
  method AppendFilePart(body: seq<Byte>, boundary: string, name: string, filename: string,
                        mimetype: string, content: seq<Byte>) returns (r: seq<Byte>)
    ensures r == body + PartBytes(boundary, File(name, filename, mimetype, content))
  {
    r := Append(body, Delimiter(boundary));
    r := Append(r, FileDisposition(name, filename));
    r := Append(r, FileContentType(mimetype));
    r := r + content;
    r := Append(r, "\r\n");
    FilePartLines(boundary, name, filename, mimetype, content);
  }

  /** A file part's bytes are the bytes of its lines around the raw content. */
  lemma FilePartLines(boundary: string, name: string, filename: string, mimetype: string, content: seq<Byte>)
    ensures PartBytes(boundary, File(name, filename, mimetype, content))
         == Encode(Delimiter(boundary)) + Encode(FileDisposition(name, filename))
            + Encode(FileContentType(mimetype)) + content + Encode("\r\n")
  {
    var h1 := Delimiter(boundary);
    var h2 := FileDisposition(name, filename);
    var h3 := FileContentType(mimetype);
    assert h1 + FileHeader(name, filename, mimetype) == h1 + (h2 + h3);
    EncodeAppend(h1, h2 + h3);
    EncodeAppend(h2, h3);
    assert Encode(h1) + (Encode(h2) + Encode(h3)) == Encode(h1) + Encode(h2) + Encode(h3);
  }

  /** Appends one text part: its delimiter line, its header lines, and its value line. */
  method AppendTextPart(body: seq<Byte>, boundary: string, name: string, value: string) returns (r: seq<Byte>)
    ensures r == body + PartBytes(boundary, Text(name, value))
  {
    r := Append(body, Delimiter(boundary));
    r := Append(r, TextHeader(name));
    r := Append(r, value + "\r\n");
    TextPartAppended(body, boundary, name, value);
  }

  /** Appending a text part's three lines one after the other appends the whole part. */
  lemma TextPartAppended(body: seq<Byte>, boundary: string, name: string, value: string)
    ensures body + Encode(Delimiter(boundary)) + Encode(TextHeader(name)) + Encode(value + "\r\n")
         == body + PartBytes(boundary, Text(name, value))
  {
    var d, h, v := Encode(Delimiter(boundary)), Encode(TextHeader(name)), Encode(value + "\r\n");
    TextPartLines(boundary, name, value);
    assert body + (d + h + v) == body + d + h + v;
  }

  /** `appendProductToBody`: appends the four text parts, in order, to `body`. */
  method AppendProductToBody(body: seq<Byte>, boundary: string, f: Fields) returns (r: seq<Byte>)
    ensures r == body + SerializeParts(boundary, ProductParts(f, None))
  {
    r := AppendTextPart(body, boundary, "product_name", f.productName);
    r := AppendTextPart(r, boundary, "price", f.price);
    r := AppendTextPart(r, boundary, "tax", f.tax);
    r := AppendTextPart(r, boundary, "product_type", f.productType);
    FourTextParts(boundary, f);
  }

  /** The four text parts serialize to their part bytes, one after the other. */
  lemma FourTextParts(boundary: string, f: Fields)
    ensures SerializeParts(boundary, ProductParts(f, None))
         == PartBytes(boundary, Text("product_name", f.productName))
            + PartBytes(boundary, Text("price", f.price))
            + PartBytes(boundary, Text("tax", f.tax))
            + PartBytes(boundary, Text("product_type", f.productType))
  {
    var ps := ProductParts(f, None);
    var p3 := ps[3..];
    var p2 := ps[2..];
    var p1 := ps[1..];
    assert p3[1..] == [];
    assert p2[1..] == p3;
    assert p1[1..] == p2;
    assert SerializeParts(boundary, p3) == PartBytes(boundary, ps[3]) + [];
    assert SerializeParts(boundary, p2) == PartBytes(boundary, ps[2]) + SerializeParts(boundary, p3);
    assert SerializeParts(boundary, p1) == PartBytes(boundary, ps[1]) + SerializeParts(boundary, p2);
    assert SerializeParts(boundary, ps) == PartBytes(boundary, ps[0]) + SerializeParts(boundary, p1);
  }
}

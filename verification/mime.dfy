/**
  Outbound messages as an abstract MIME tree.

  The bulk sender builds a `multipart/mixed` message: the plain-text body,
  then the PDF as an attachment, then an image as an inline part addressed by
  a Content-ID equal to its filename (RFC 2392, RFC 2183). The diagnostics
  page's test send builds either a plain `multipart/mixed` message or, when a
  signature image is available, a `multipart/related` container (RFC 2387)
  around a `multipart/alternative` pair (section 5.1.4 of RFC 2046) of plain
  text and HTML, followed by the signature image that the HTML references as
  `cid:signature_image`.
 */
module Mime {
  import opened Common
  import opened Text

  /** The Content-Disposition of a binary part (RFC 2183). */
  datatype Disposition = Attachment(filename: string) | Inline(filename: string)

  datatype Part =
    | Multipart(subtype: string, parts: seq<Part>)
    | TextPart(subtype: string, content: string)
    | BinaryPart(mainType: string, subType: string, data: seq<byte>,
                 disposition: Disposition, contentId: Option<string>)

  /** A message: the three headers the code sets, and the body tree. */
  datatype Message = Message(from: string, to: string, subject: string, root: Part)

  // ---------------------------------------------------------------------------
  // Reading a tree back: leaves in document order and what they carry.
  // ---------------------------------------------------------------------------

  /** The non-container parts of a tree, depth first, in document order. */
  function Leaves(p: Part): (ls: seq<Part>)
    ensures forall i :: 0 <= i < |ls| ==> !ls[i].Multipart?
    ensures !p.Multipart? ==> ls == [p]
    decreases p
  {
    match p
    case Multipart(_, ps) => LeavesAll(ps)
    case _ => [p]
  }

  function LeavesAll(ps: seq<Part>): (ls: seq<Part>)
    ensures forall i :: 0 <= i < |ls| ==> !ls[i].Multipart?
    decreases ps
  {
    if |ps| == 0 then [] else Leaves(ps[0]) + LeavesAll(ps[1..])
  }

  /** The content of the first `text/plain` leaf, if any. */
  function FirstPlain(ls: seq<Part>): Option<string>
  {
    if |ls| == 0 then None
    else if ls[0].TextPart? && ls[0].subtype == "plain" then Some(ls[0].content)
    else FirstPlain(ls[1..])
  }

  /** The filenames of the parts sent as attachments, in order. */
  function AttachmentNames(ls: seq<Part>): seq<string>
  {
    if |ls| == 0 then []
    else if ls[0].BinaryPart? && ls[0].disposition.Attachment? then
      [ls[0].disposition.filename] + AttachmentNames(ls[1..])
    else AttachmentNames(ls[1..])
  }

  /** The Content-IDs of the parts that can be referenced with `cid:`, in order. */
  function ContentIds(ls: seq<Part>): seq<string>
  {
    if |ls| == 0 then []
    else if ls[0].BinaryPart? && ls[0].contentId.Some? then
      [ls[0].contentId.value] + ContentIds(ls[1..])
    else ContentIds(ls[1..])
  }

  /** Every part that carries a Content-ID is shown inline rather than attached. */
  predicate IdentifiedPartsInline(ls: seq<Part>)
  {
    forall i :: 0 <= i < |ls| && ls[i].BinaryPart? && ls[i].contentId.Some? ==>
      ls[i].disposition.Inline?
  }

  // ---------------------------------------------------------------------------
  // The bulk sender's message.
  // ---------------------------------------------------------------------------

  /**
    `attach_file_to_email`: opaque binary content; a `"pdf"` file becomes an
    attachment, anything else an inline part whose Content-ID is its filename.
   */
  function FilePart(data: seq<byte>, filename: string, contentType: string): (p: Part)
    ensures p.BinaryPart? && p.mainType == "application" && p.subType == "octet-stream" && p.data == data
    ensures p.disposition.filename == filename
    ensures p.disposition.Attachment? <==> contentType == "pdf"
    ensures p.contentId.Some? <==> p.disposition.Inline?
    ensures p.contentId.Some? ==> p.contentId.value == filename
  {
    if contentType == "pdf" then BinaryPart("application", "octet-stream", data, Attachment(filename), None)
    else BinaryPart("application", "octet-stream", data, Inline(filename), Some(filename))
  }

  /** The optional files added to every message of a batch. */
  datatype Files = Files(pdfData: Option<seq<byte>>, pdfName: Option<string>,
                         imageData: Option<seq<byte>>, imageName: Option<string>)

  /** A file is added only when both its content and its name are truthy. */
  predicate HasPdf(f: Files) { TruthyBytes(f.pdfData) && TruthyText(f.pdfName) }
  predicate HasImage(f: Files) { TruthyBytes(f.imageData) && TruthyText(f.imageName) }

  /** The message of one row of a bulk send. */
  function BulkMessage(from: string, to: string, subject: string, body: string, files: Files): (m: Message)
    ensures m.from == from && m.to == to && m.subject == subject
    ensures m.root.Multipart? && m.root.subtype == "mixed"
    ensures |m.root.parts| == 1 + (if HasPdf(files) then 1 else 0) + (if HasImage(files) then 1 else 0)
    ensures m.root.parts[0] == TextPart("plain", body)
    ensures HasPdf(files) ==> m.root.parts[1] == FilePart(files.pdfData.value, files.pdfName.value, "pdf")
    ensures HasImage(files) ==>
      m.root.parts[|m.root.parts| - 1] == FilePart(files.imageData.value, files.imageName.value, "image")
  {
    var text := [TextPart("plain", body)];
    var pdf := if HasPdf(files) then [FilePart(files.pdfData.value, files.pdfName.value, "pdf")] else [];
    var image := if HasImage(files) then [FilePart(files.imageData.value, files.imageName.value, "image")] else [];
    Message(from, to, subject, Multipart("mixed", text + pdf + image))
  }

  lemma LeavesOfFlat(ps: seq<Part>)
    requires forall i :: 0 <= i < |ps| ==> !ps[i].Multipart?
    ensures LeavesAll(ps) == ps
  {
    if |ps| > 0 {
      LeavesOfFlat(ps[1..]);
    }
  }

  /** Reading back distributes over concatenation. */
  lemma {:induction false} ReadBackConcat(a: seq<Part>, b: seq<Part>)
    ensures AttachmentNames(a + b) == AttachmentNames(a) + AttachmentNames(b)
    ensures ContentIds(a + b) == ContentIds(a) + ContentIds(b)
    ensures FirstPlain(a + b) == if FirstPlain(a).Some? then FirstPlain(a) else FirstPlain(b)
    decreases |a|
  {
    if |a| > 0 {
      assert (a + b)[1..] == a[1..] + b;
      ReadBackConcat(a[1..], b);
    } else {
      assert a + b == b;
    }
  }

  /** What a single part contributes when read back. */
  lemma ReadBackOne(p: Part)
    ensures AttachmentNames([p]) == if p.BinaryPart? && p.disposition.Attachment? then [p.disposition.filename] else []
    ensures ContentIds([p]) == if p.BinaryPart? && p.contentId.Some? then [p.contentId.value] else []
    ensures FirstPlain([p]) == if p.TextPart? && p.subtype == "plain" then Some(p.content) else None
  {
    assert [p][1..] == [];
  }

  /**
    Reading the bulk message back gives what went in: the body is the plain
    text, the PDF's name is the only attachment name, and the image's name
    is the only Content-ID, on an inline part.
   */
  lemma {:induction false} BulkMessageReadBack(from: string, to: string, subject: string, body: string, files: Files)
    ensures var ls := Leaves(BulkMessage(from, to, subject, body, files).root);
      && FirstPlain(ls) == Some(body)
      && AttachmentNames(ls) == (if HasPdf(files) then [files.pdfName.value] else [])
      && ContentIds(ls) == (if HasImage(files) then [files.imageName.value] else [])
      && IdentifiedPartsInline(ls)
  {
    var ps := BulkMessage(from, to, subject, body, files).root.parts;
    LeavesOfFlat(ps);
    assert Leaves(Multipart("mixed", ps)) == ps;
    var text := [TextPart("plain", body)];
    var pdf := if HasPdf(files) then [FilePart(files.pdfData.value, files.pdfName.value, "pdf")] else [];
    var image := if HasImage(files) then [FilePart(files.imageData.value, files.imageName.value, "image")] else [];
    assert ps == text + pdf + image;
    ReadBackConcat(text, pdf);
    ReadBackConcat(text + pdf, image);
    ReadBackOne(text[0]);
    if HasPdf(files) {
      ReadBackOne(pdf[0]);
    }
    if HasImage(files) {
      ReadBackOne(image[0]);
    }
  }

  // ---------------------------------------------------------------------------
  // The diagnostics page's test message.
  // ---------------------------------------------------------------------------

  /** The Content-ID the HTML body uses to reach the signature image. */
  const SignatureId := "signature_image"

  /**
    The image subtype for a signature file, keyed on its lower-cased
    extension (the text after the last dot): png stays png, everything else
    is sent as jpeg.
   */
  function SignatureSubtype(name: string): (s: string)
    ensures s == "png" || s == "jpeg"
    ensures s == "png" <==> Lower(AfterLast(name, '.')) == "png"
  {
    var ext := Lower(AfterLast(name, '.'));
    if ext == "jpg" then "jpeg" else if ext == "jpeg" then "jpeg" else if ext == "png" then "png" else "jpeg"
  }

  const HtmlOpen :=
    "<html><body style=\"margin:0;padding:0;\">"
    + "<div style=\"font-family:Calibri,Arial,sans-serif;font-size:14px;line-height:1.6;padding:16px 0;\">"

  /** The reference by which the HTML reaches the signature part (RFC 2392). */
  const SignatureRef := "cid:" + SignatureId

  /** What precedes the signature reference: the end of the text block and the start of the image element. */
  const ImgHead :=
    "</div>"
    + "<div style=\"width:100%;margin:0;padding:0;display:block;\">"
    + "<img src=\""

  /** What follows the signature reference: the rest of the image element and the end of the document. */
  const ImgTail :=
    "\" style=\"width:100%;max-width:100%;display:block;margin:0;padding:0;border:none;\" alt=\"Signature\"/>"
    + "</div></body></html>"

  /** Closes the text block and places the signature, full width, as the last element. */
  const HtmlClose := ImgHead + SignatureRef + ImgTail

  /** The HTML alternative: the body with every line break written as `<br/>`, then the signature. */
  function HtmlBody(body: string): (h: string)
    ensures |h| == |HtmlOpen| + |body| + 4 * Count(body, '\n') + |HtmlClose|
    ensures h[..|HtmlOpen|] == HtmlOpen && h[|h| - |HtmlClose|..] == HtmlClose
    ensures '\n' !in h[|HtmlOpen|..|h| - |HtmlClose|]
    ensures h == HtmlOpen + ReplaceChar(body, '\n', "<br/>") + HtmlClose
  {
    var mid := ReplaceChar(body, '\n', "<br/>");
    ReplaceCharLength(body, '\n', "<br/>");
    assert '\n' !in "<br/>";
    SliceThree(HtmlOpen, mid, HtmlClose);
    HtmlOpen + mid + HtmlClose
  }

  /** The test message: with a truthy signature, the related tree; otherwise plain text only. */
  function TestMessage(from: string, to: string, subject: string, body: string,
                       sigData: Option<seq<byte>>, sigName: Option<string>): (m: Message)
    ensures m.from == from && m.to == to && m.subject == subject
    ensures m.root.Multipart?
    ensures m.root.subtype == "related" <==> TruthyBytes(sigData) && TruthyText(sigName)
    ensures TruthyBytes(sigData) && TruthyText(sigName) ==>
      && |m.root.parts| == 2
      && m.root.parts[0].Multipart? && m.root.parts[0].subtype == "alternative"
      && Leaves(m.root.parts[0]) == [TextPart("plain", body), TextPart("html", HtmlBody(body))]
      && m.root.parts[1].BinaryPart? && m.root.parts[1].mainType == "image"
      && m.root.parts[1].subType == SignatureSubtype(sigName.value)
      && m.root.parts[1].data == sigData.value && m.root.parts[1].disposition == Inline(sigName.value)
      && m.root.parts[1].contentId == Some(SignatureId)
    ensures !(TruthyBytes(sigData) && TruthyText(sigName)) ==> m.root == Multipart("mixed", [TextPart("plain", body)])
  {
    if TruthyBytes(sigData) && TruthyText(sigName) then
      LeavesOfPair(TextPart("plain", body), TextPart("html", HtmlBody(body)));
      var alt := Multipart("alternative", [TextPart("plain", body), TextPart("html", HtmlBody(body))]);
      var image := BinaryPart("image", SignatureSubtype(sigName.value), sigData.value,
                              Inline(sigName.value), Some(SignatureId));
      Message(from, to, subject, Multipart("related", [alt, image]))
    else
      Message(from, to, subject, Multipart("mixed", [TextPart("plain", body)]))
  }

  /** Two lines of text become the two lines joined by `<br/>` between the fixed opening and closing. */
  lemma HtmlTwoLines(a: string, b: string)
    requires '\n' !in a && '\n' !in b
    ensures HtmlBody(a + "\n" + b) == HtmlOpen + (a + "<br/>" + b) + HtmlClose
  {
    assert "\n" == ['\n'];
    ReplaceCharAround(a, b, '\n', "<br/>");
  }

  lemma HtmlReferencesSignature(body: string)
    ensures Contains(HtmlBody(body), SignatureRef)
  {
    ContainsMiddle(HtmlOpen + ReplaceChar(body, '\n', "<br/>"), ImgHead, SignatureRef, ImgTail);
  }

  /** The leaves of a container with two children. */
  lemma LeavesOfPair(a: Part, b: Part)
    ensures LeavesAll([a, b]) == Leaves(a) + Leaves(b)
  {
    assert [a, b][1..] == [b];
    assert [b][1..] == [];
    assert LeavesAll([b]) == Leaves(b) + LeavesAll([]);
  }

  /** The leaves of the signed test message. */
  lemma SignedLeaves(from: string, to: string, subject: string, body: string,
                     sigData: Option<seq<byte>>, sigName: Option<string>)
    requires TruthyBytes(sigData) && TruthyText(sigName)
    ensures Leaves(TestMessage(from, to, subject, body, sigData, sigName).root) ==
      [TextPart("plain", body), TextPart("html", HtmlBody(body)),
       BinaryPart("image", SignatureSubtype(sigName.value), sigData.value, Inline(sigName.value), Some(SignatureId))]
  {
    var plain := TextPart("plain", body);
    var html := TextPart("html", HtmlBody(body));
    var image := BinaryPart("image", SignatureSubtype(sigName.value), sigData.value, Inline(sigName.value), Some(SignatureId));
    var alt := Multipart("alternative", [plain, html]);
    assert TestMessage(from, to, subject, body, sigData, sigName).root == Multipart("related", [alt, image]);
    LeavesOfPair(alt, image);
    LeavesOfPair(plain, html);
  }

  /** The signed message's leaves read back: plain body first, the HTML, then the one identified, inline image. */
  lemma SignedReadBack(from: string, to: string, subject: string, body: string,
                       sigData: Option<seq<byte>>, sigName: Option<string>)
    requires TruthyBytes(sigData) && TruthyText(sigName)
    ensures var ls := Leaves(TestMessage(from, to, subject, body, sigData, sigName).root);
      && FirstPlain(ls) == Some(body)
      && AttachmentNames(ls) == []
      && ContentIds(ls) == [SignatureId]
  {
    SignedLeaves(from, to, subject, body, sigData, sigName);
    var plain := TextPart("plain", body);
    var html := TextPart("html", HtmlBody(body));
    var image := BinaryPart("image", SignatureSubtype(sigName.value), sigData.value, Inline(sigName.value), Some(SignatureId));
    assert [plain, html, image] == [plain] + [html] + [image];
    ReadBackConcat([plain], [html]);
    ReadBackConcat([plain] + [html], [image]);
    ReadBackOne(plain);
    ReadBackOne(html);
    ReadBackOne(image);
  }

  /** The unsigned message is its plain body alone. */
  lemma UnsignedReadBack(from: string, to: string, subject: string, body: string,
                         sigData: Option<seq<byte>>, sigName: Option<string>)
    requires !(TruthyBytes(sigData) && TruthyText(sigName))
    ensures Leaves(TestMessage(from, to, subject, body, sigData, sigName).root) == [TextPart("plain", body)]
  {
    var plain := TextPart("plain", body);
    assert LeavesAll([plain]) == [plain] by { LeavesOfFlat([plain]); }
  }

  /** The signed test message, read back leaf by leaf. */
  lemma SignedShape(from: string, to: string, subject: string, body: string,
                    sigData: Option<seq<byte>>, sigName: Option<string>)
    requires TruthyBytes(sigData) && TruthyText(sigName)
    ensures var ls := Leaves(TestMessage(from, to, subject, body, sigData, sigName).root);
      && FirstPlain(ls) == Some(body)
      && AttachmentNames(ls) == []
      && IdentifiedPartsInline(ls)
      && |ls| == 3
      && ls[1] == TextPart("html", HtmlBody(body))
      && Contains(ls[1].content, SignatureRef)
      && ContentIds(ls) == [SignatureId]
      && ls[2].BinaryPart? && ls[2].disposition == Inline(sigName.value)
  {
    SignedLeaves(from, to, subject, body, sigData, sigName);
    HtmlReferencesSignature(body);
    SignedLeavesShape(Leaves(TestMessage(from, to, subject, body, sigData, sigName).root),
                      body, HtmlBody(body), sigData.value, sigName.value);
  }

  /** The three leaves of a signed message, read back. */
  lemma SignedLeavesShape(ls: seq<Part>, body: string, h: string, data: seq<byte>, name: string)
    requires ls == [TextPart("plain", body), TextPart("html", h),
                    BinaryPart("image", SignatureSubtype(name), data, Inline(name), Some(SignatureId))]
    requires Contains(h, SignatureRef)
    ensures && FirstPlain(ls) == Some(body)
      && AttachmentNames(ls) == []
      && IdentifiedPartsInline(ls)
      && |ls| == 3
      && ls[1] == TextPart("html", h)
      && Contains(ls[1].content, SignatureRef)
      && ContentIds(ls) == [SignatureId]
      && ls[2].BinaryPart? && ls[2].disposition == Inline(name)
  {
    var plain, html, image := ls[0], ls[1], ls[2];
    assert FirstPlain(ls) == Some(body) && AttachmentNames(ls) == [] && ContentIds(ls) == [SignatureId] by {
      assert ls == [plain] + [html] + [image];
      ReadBackConcat([plain], [html]);
      ReadBackConcat([plain] + [html], [image]);
      ReadBackOne(plain);
      ReadBackOne(html);
      ReadBackOne(image);
    }
  }

  /**
    The test message, read back: the plain text comes first and is the body,
    and nothing is an attachment. With a signature, the HTML references
    `cid:signature_image`, and exactly one part carries that Content-ID,
    shown inline under the signature's filename. Without a signature the
    message is the plain body alone.
   */
  lemma {:induction false} TestMessageReadBack(from: string, to: string, subject: string, body: string,
                                               sigData: Option<seq<byte>>, sigName: Option<string>)
    ensures var ls := Leaves(TestMessage(from, to, subject, body, sigData, sigName).root);
      && FirstPlain(ls) == Some(body)
      && AttachmentNames(ls) == []
      && IdentifiedPartsInline(ls)
      && (TruthyBytes(sigData) && TruthyText(sigName) ==>
            && |ls| == 3
            && ls[1] == TextPart("html", HtmlBody(body))
            && Contains(ls[1].content, SignatureRef)
            && ContentIds(ls) == [SignatureId]
            && ls[2].BinaryPart? && ls[2].disposition == Inline(sigName.value))
      && (!(TruthyBytes(sigData) && TruthyText(sigName)) ==> ls == [TextPart("plain", body)])
  {
    if TruthyBytes(sigData) && TruthyText(sigName) {
      SignedShape(from, to, subject, body, sigData, sigName);
    } else {
      UnsignedReadBack(from, to, subject, body, sigData, sigName);
      ReadBackOne(TextPart("plain", body));
    }
  }

  lemma SignatureSubtypeJpg()
    ensures SignatureSubtype("firstmail.jpg") == "jpeg"
  {
    assert AfterLast("firstmail.jpg", '.') == "jpg";
    assert Lower("jpg") == "jpg";
  }

  lemma SignatureSubtypeUpperPng()
    ensures SignatureSubtype("firstmail.PNG") == "png"
  {
    assert AfterLast("firstmail.PNG", '.') == "PNG";
    assert Lower("PNG") == "png";
  }

  lemma SignatureSubtypeOther()
    ensures SignatureSubtype("firstmail.gif") == "jpeg"
  {
    assert AfterLast("firstmail.gif", '.') == "gif";
    assert Lower("gif") == "gif";
  }
}

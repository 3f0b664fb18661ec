/**
  The notification text the email handler builds from the sender and the parsed
  message (`notifyMessage` in `src/index.js`): a title naming the sender, the
  subject and text body inserted verbatim, then an attachments section that is
  either "No attachments" or one entry per attachment in the parser's order.
 */
module NotifyMessage {
  import opened Js
  import opened Seqs

  /** One attachment as the MIME parser reports it. */
  datatype Attachment = Attachment(filename: JsText, disposition: JsText, mimeType: JsText, content: seq<uint8>)

  /** The parser's result; `html` is read (and logged) but never formatted. */
  datatype ParsedEmail = ParsedEmail(subject: JsText, html: JsText, text: JsText, attachments: seq<Attachment>)

  function Title(from: string): string {
    "I received an email from " + from + "."
  }

  /** The title, the subject section and the body section. */
  function Opening(from: string, email: ParsedEmail): string {
    Title(from) + "\n\n## Subject \n" + ToStr(email.subject)
    + "\n\n## Body \n" + ToStr(email.text) + "\n\n"
  }

  /** Everything up to and including the "## Attachments " heading line. */
  function Preamble(from: string, email: ParsedEmail): string {
    Opening(from, email) + "## Attachments \n"
  }

  const NoAttachments: string := "No attachments\n"

  /** The text one iteration of the `forEach` appends. */
  function Entry(att: Attachment): string {
    "\n\nAttachment: " + ToStr(att.filename)
    + "\nAttachment disposition: " + ToStr(att.disposition)
    + "\nAttachment mime type: " + ToStr(att.mimeType)
    + "\nAttachment size: " + DecimalString(|att.content|)
  }

  /** The entry of each attachment, position by position. */
  function EntryTexts(atts: seq<Attachment>): (texts: seq<string>)
    ensures |texts| == |atts|
  {
    seq(|atts|, k requires 0 <= k < |atts| => Entry(atts[k]))
  }

  /** The entries of `atts`, joined in the parser's order. */
  function Entries(atts: seq<Attachment>): string
  {
    Flatten(EntryTexts(atts))
  }

  function AttachmentsSection(atts: seq<Attachment>): string {
    if |atts| == 0 then NoAttachments else Entries(atts)
  }

  /** The notification text, as a function of the sender and the parsed
      message: the preamble, then an attachments section that is the
      "No attachments" line exactly when there are none. */
  function Format(from: string, email: ParsedEmail): (r: string)
    ensures |r| > |Preamble(from, email)|
    ensures r[..|Preamble(from, email)|] == Preamble(from, email)
    ensures r[|Preamble(from, email)|..] == NoAttachments <==> |email.attachments| == 0
  {
    var section := AttachmentsSection(email.attachments);
    if |email.attachments| > 0 then
      EntriesNonEmpty(email.attachments);
      assert section[0] == '\n' && NoAttachments[0] == 'N';
      Preamble(from, email) + section
    else
      Preamble(from, email) + section
  }

  /** The handler's own construction: the preamble, then the heading, then
      either the "No attachments" line or one `+=` per attachment. */
  method BuildNotifyMessage(from: string, email: ParsedEmail) returns (notifyMessage: string)
    ensures notifyMessage == Format(from, email)
    ensures |email.attachments| == 0 ==> notifyMessage == Preamble(from, email) + "No attachments\n"
    ensures |notifyMessage| > |Preamble(from, email)|
  {
    var notifyTitle := Title(from);
    notifyMessage := notifyTitle + "\n\n## Subject \n" + ToStr(email.subject)
      + "\n\n## Body \n" + ToStr(email.text) + "\n\n";
    notifyMessage := notifyMessage + "## Attachments \n";
    if |email.attachments| == 0 {
      notifyMessage := notifyMessage + "No attachments\n";
    } else {
      var atts := email.attachments;
      var i := 0;
      while i < |atts|
        invariant 0 <= i <= |atts|
        invariant notifyMessage == Preamble(from, email) + Entries(atts[..i])
      {
        var att := atts[i];
        // `+=` evaluates its whole right-hand side before appending it
        var entry := "\n\nAttachment: " + ToStr(att.filename)
          + "\nAttachment disposition: " + ToStr(att.disposition)
          + "\nAttachment mime type: " + ToStr(att.mimeType)
          + "\nAttachment size: " + DecimalString(|att.content|);
        EntriesStep(atts, i);
        AppendAssoc(Preamble(from, email), Entries(atts[..i]), entry);
        notifyMessage := notifyMessage + entry;
        i := i + 1;
      }
      assert atts[..i] == atts;
      EntriesNonEmpty(atts);
    }
  }

  lemma AppendAssoc(a: string, b: string, c: string)
    ensures a + b + c == a + (b + c)
  {
  }

  lemma EntryTextsAt(atts: seq<Attachment>, k: nat)
    requires k < |atts|
    ensures EntryTexts(atts)[k] == Entry(atts[k])
  {
  }

  lemma EntryTextsPrefix(atts: seq<Attachment>, i: nat)
    requires i <= |atts|
    ensures EntryTexts(atts[..i]) == EntryTexts(atts)[..i]
  {
  }

  lemma EntriesStep(atts: seq<Attachment>, i: nat)
    requires i < |atts|
    ensures Entries(atts[..i + 1]) == Entries(atts[..i]) + Entry(atts[i])
  {
    var texts := EntryTexts(atts);
    EntryTextsPrefix(atts, i);
    EntryTextsPrefix(atts, i + 1);
    FlattenStep(texts, i);
    EntryTextsAt(atts, i);
  }

  // ---------------------------------------------------------------------------
  // Properties
  // ---------------------------------------------------------------------------

  /** Where each piece of a concatenation of the opening's shape lies. */
  lemma OpeningPieces(from: string, subject: string, text: string, sec: string)
    ensures var m := "I received an email from " + from + "." + "\n\n## Subject \n" + subject
                     + "\n\n## Body \n" + text + "\n\n" + "## Attachments \n" + sec;
            var f0 := |"I received an email from "|;
            var s0 := f0 + |from| + |".\n\n## Subject \n"|;
            var t0 := s0 + |subject| + |"\n\n## Body \n"|;
            var a0 := t0 + |text| + |"\n\n"|;
            && a0 + |"## Attachments \n"| <= |m|
            && m[..f0] == "I received an email from "
            && m[f0..f0 + |from|] == from
            && m[f0 + |from|..f0 + |from| + 1] == "."
            && m[f0 + |from| + 1..s0] == "\n\n## Subject \n"
            && m[s0..s0 + |subject|] == subject
            && m[s0 + |subject|..t0] == "\n\n## Body \n"
            && m[t0..t0 + |text|] == text
            && m[t0 + |text|..a0] == "\n\n"
            && m[a0..a0 + |"## Attachments \n"|] == "## Attachments \n"
  {
    var x1, x2, x3, x5, x7, x8 := "I received an email from ", ".", "\n\n## Subject \n", "\n\n## Body \n", "\n\n", "## Attachments \n";
    var p1 := x1 + from;
    var q1 := p1 + x2;
    var p2 := q1 + x3;
    var p3 := p2 + subject;
    var p4 := p3 + x5;
    var p5 := p4 + text;
    var p6 := p5 + x7;
    var p7 := p6 + x8;
    var m := p7 + sec;
    SliceRight(p6, x8); SliceLeft(p7, sec, |p6|, |p7|);
    SliceRight(p5, x7); SliceLeft(p6, x8, |p5|, |p6|); SliceLeft(p7, sec, |p5|, |p6|);
    SliceRight(p4, text); SliceLeft(p5, x7, |p4|, |p5|); SliceLeft(p6, x8, |p4|, |p5|); SliceLeft(p7, sec, |p4|, |p5|);
    SliceRight(p3, x5); SliceLeft(p4, text, |p3|, |p4|); SliceLeft(p5, x7, |p3|, |p4|);
    SliceLeft(p6, x8, |p3|, |p4|); SliceLeft(p7, sec, |p3|, |p4|);
    SliceRight(p2, subject); SliceLeft(p3, x5, |p2|, |p3|); SliceLeft(p4, text, |p2|, |p3|); SliceLeft(p5, x7, |p2|, |p3|);
    SliceLeft(p6, x8, |p2|, |p3|); SliceLeft(p7, sec, |p2|, |p3|);
    SliceRight(q1, x3); SliceLeft(p2, subject, |q1|, |p2|); SliceLeft(p3, x5, |q1|, |p2|); SliceLeft(p4, text, |q1|, |p2|);
    SliceLeft(p5, x7, |q1|, |p2|); SliceLeft(p6, x8, |q1|, |p2|); SliceLeft(p7, sec, |q1|, |p2|);
    SliceRight(p1, x2); SliceLeft(q1, x3, |p1|, |q1|); SliceLeft(p2, subject, |p1|, |q1|); SliceLeft(p3, x5, |p1|, |q1|);
    SliceLeft(p4, text, |p1|, |q1|); SliceLeft(p5, x7, |p1|, |q1|); SliceLeft(p6, x8, |p1|, |q1|); SliceLeft(p7, sec, |p1|, |q1|);
    SliceRight(x1, from); SliceLeft(q1, x3, |x1|, |p1|); SliceLeft(p2, subject, |x1|, |p1|);
    SliceLeft(p1, x2, |x1|, |p1|); SliceLeft(p3, x5, |x1|, |p1|);
    SliceLeft(p4, text, |x1|, |p1|); SliceLeft(p5, x7, |x1|, |p1|); SliceLeft(p6, x8, |x1|, |p1|); SliceLeft(p7, sec, |x1|, |p1|);
    SliceLeft(x1, from, 0, |x1|); SliceLeft(p1, x2, 0, |x1|); SliceLeft(q1, x3, 0, |x1|); SliceLeft(p2, subject, 0, |x1|);
    SliceLeft(p3, x5, 0, |x1|); SliceLeft(p4, text, 0, |x1|); SliceLeft(p5, x7, 0, |x1|); SliceLeft(p6, x8, 0, |x1|);
    SliceLeft(p7, sec, 0, |x1|);
  }

  /** The opening of every notification, piece by piece at the offsets the
      pieces before it determine: the sender, the subject and the text body
      appear verbatim, with nothing escaped, between fixed headings. */
  lemma FormatOpening(from: string, email: ParsedEmail)
    ensures var m := Format(from, email);
            var subject := ToStr(email.subject);
            var text := ToStr(email.text);
            var f0 := |"I received an email from "|;
            var s0 := f0 + |from| + |".\n\n## Subject \n"|;
            var t0 := s0 + |subject| + |"\n\n## Body \n"|;
            var a0 := t0 + |text| + |"\n\n"|;
            && a0 + |"## Attachments \n"| == |Preamble(from, email)| <= |m|
            && m[..f0] == "I received an email from "
            && m[f0..f0 + |from|] == from
            && m[f0 + |from|..f0 + |from| + 1] == "."
            && m[f0 + |from| + 1..s0] == "\n\n## Subject \n"
            && m[s0..s0 + |subject|] == subject
            && m[s0 + |subject|..t0] == "\n\n## Body \n"
            && m[t0..t0 + |text|] == text
            && m[t0 + |text|..a0] == "\n\n"
            && m[a0..a0 + |"## Attachments \n"|] == "## Attachments \n"
  {
    OpeningPieces(from, ToStr(email.subject), ToStr(email.text), AttachmentsSection(email.attachments));
  }

  lemma EntryShape(att: Attachment)
    ensures |Entry(att)| > |"\n\nAttachment: "|
    ensures Entry(att)[..|"\n\nAttachment: "|] == "\n\nAttachment: "
    ensures IsDigit(Entry(att)[|Entry(att)| - 1])
  {
    var size := DecimalString(|att.content|);
    var h := "\n\nAttachment: ";
    var lines := h + ToStr(att.filename) + "\nAttachment disposition: " + ToStr(att.disposition)
                 + "\nAttachment mime type: " + ToStr(att.mimeType) + "\nAttachment size: ";
    assert Entry(att) == lines + size;
    Ends(h, lines, size);
  }

  /** A sum that starts with `h` and ends with a non-empty `z` shows both. */
  lemma Ends(h: string, lines: string, z: string)
    requires |z| > 0 && |lines| >= |h| && lines[..|h|] == h
    ensures |lines + z| > |h|
    ensures (lines + z)[..|h|] == h
    ensures (lines + z)[|lines + z| - 1] == z[|z| - 1]
  {
    assert (lines + z)[..|h|] == lines[..|h|];
  }

  /** A non-empty list of entries starts with a blank line and "Attachment: ",
      and ends in the last attachment's size digit, with no trailing newline. */
  lemma {:induction false} EntriesNonEmpty(atts: seq<Attachment>)
    requires |atts| > 0
    ensures |Entries(atts)| > |"\n\nAttachment: "|
    ensures Entries(atts)[..|"\n\nAttachment: "|] == "\n\nAttachment: "
    ensures IsDigit(Entries(atts)[|Entries(atts)| - 1])
    decreases |atts|
  {
    var n := |atts| - 1;
    EntryShape(atts[n]);
    EntriesStep(atts, n);
    assert atts[..n + 1] == atts;
    var before := Entries(atts[..n]);
    if n > 0 {
      EntriesNonEmpty(atts[..n]);
      SliceLeft(before, Entry(atts[n]), 0, 14);
    } else {
      assert before == [];
    }
  }

  /** The right operand of `+`, or a prefix of it, read back from the sum. */
  lemma SliceRightPrefix(p: string, q: string, k: nat)
    requires k <= |q|
    ensures (p + q)[|p|..] == q
    ensures (p + q)[|p|..|p| + k] == q[..k]
  {
  }

  /** With at least one attachment the section opens with the first entry,
      never with "No attachments", and the text ends without a newline. */
  lemma FormatWithAttachments(from: string, email: ParsedEmail)
    requires |email.attachments| > 0
    ensures var p := |Preamble(from, email)|;
            var m := Format(from, email);
            |m| > p + 14 && m[p..p + 14] == "\n\nAttachment: "
    ensures IsDigit(Format(from, email)[|Format(from, email)| - 1])
    ensures Format(from, email)[|Format(from, email)| - 1] != '\n'
  {
    EntriesNonEmpty(email.attachments);
    var pre := Preamble(from, email);
    var e := Entries(email.attachments);
    SliceRightPrefix(pre, e, 14);
    assert (pre + e)[|pre + e| - 1] == e[|e| - 1];
  }

  /** Attaching one more file to a message that already has attachments appends
      exactly that file's entry, so the text strictly grows. */
  lemma FormatAppend(from: string, email: ParsedEmail, att: Attachment)
    requires |email.attachments| > 0
    ensures Format(from, email.(attachments := email.attachments + [att]))
            == Format(from, email) + Entry(att)
    ensures |Format(from, email.(attachments := email.attachments + [att]))| > |Format(from, email)|
  {
    var atts := email.attachments + [att];
    var email' := email.(attachments := atts);
    var n := |email.attachments|;
    assert atts[..n] == email.attachments;
    assert atts[..n + 1] == atts;
    EntriesStep(atts, n);
    assert Preamble(from, email') == Preamble(from, email);
    AppendAssoc(Preamble(from, email), Entries(email.attachments), Entry(att));
    EntryShape(att);
  }

  /** The first attachment replaces the "No attachments" line by its entry,
      which is longer, so this step grows the text as well. */
  lemma FormatFirstAttachment(from: string, email: ParsedEmail, att: Attachment)
    requires |email.attachments| == 0
    ensures Format(from, email.(attachments := [att])) == Preamble(from, email) + Entry(att)
    ensures |Format(from, email.(attachments := [att]))| > |Format(from, email)|
  {
    var email' := email.(attachments := [att]);
    assert Preamble(from, email') == Preamble(from, email);
    assert EntryTexts([att]) == [Entry(att)] by {
      EntryTextsAt([att], 0);
    }
    FlattenSingle(Entry(att));
    assert Format(from, email) == Preamble(from, email) + NoAttachments;
    EntryLength(att);
  }

  /** An entry is longer than the "No attachments" line: its four headings
      alone are. */
  lemma EntryLength(att: Attachment)
    ensures |Entry(att)| > |NoAttachments|
  {
  }

  /** Where the `i`-th entry starts in the list of entries. */
  function EntryOffset(atts: seq<Attachment>, i: nat): nat
    requires i <= |atts|
  {
    |Entries(atts[..i])|
  }

  /** Each attachment's entry sits, whole, right after the entries of the
      attachments before it: the entries keep the parser's order. */
  lemma EntriesInOrder(atts: seq<Attachment>, i: nat)
    requires i < |atts|
    ensures EntryOffset(atts, i) + |Entry(atts[i])| <= |Entries(atts)|
    ensures Entries(atts)[EntryOffset(atts, i)..EntryOffset(atts, i) + |Entry(atts[i])|] == Entry(atts[i])
  {
    var texts := EntryTexts(atts);
    EntryTextsPrefix(atts, i);
    FlattenPieceAt(texts, i);
    EntryTextsAt(atts, i);
    assert Entries(atts) == Flatten(texts);
    assert EntryOffset(atts, i) == |Flatten(texts[..i])|;
  }

  /** The text depends on the sender, subject, text body and attachments only:
      the HTML body never reaches it. */
  lemma FormatIgnoresHtml(from: string, email: ParsedEmail, html: JsText)
    ensures Format(from, email.(html := html)) == Format(from, email)
  {
  }

  /** The two-attachment scenario: a 10-byte text file then a 2048-byte image
      are listed in that order, with their sizes in decimal. */
  lemma TwoAttachmentsScenario(from: string, subject: JsText, text: JsText,
                               a: seq<uint8>, b: seq<uint8>)
    requires |a| == 10 && |b| == 2048
    ensures var email := ParsedEmail(subject, Undefined, text, [
              Attachment(Str("a.txt"), Str("attachment"), Str("text/plain"), a),
              Attachment(Str("b.png"), Str("inline"), Str("image/png"), b)]);
            Format(from, email) == Preamble(from, email)
              + ("\n\nAttachment: " + "a.txt" + "\nAttachment disposition: " + "attachment"
                 + "\nAttachment mime type: " + "text/plain" + "\nAttachment size: " + "10")
              + ("\n\nAttachment: " + "b.png" + "\nAttachment disposition: " + "inline"
                 + "\nAttachment mime type: " + "image/png" + "\nAttachment size: " + "2048")
  {
    var x := Attachment(Str("a.txt"), Str("attachment"), Str("text/plain"), a);
    var y := Attachment(Str("b.png"), Str("inline"), Str("image/png"), b);
    var email := ParsedEmail(subject, Undefined, text, [x, y]);
    SizesPrinted();
    EntriesOfTwo(x, y);
    AppendAssoc(Preamble(from, email), Entry(x), Entry(y));
  }

  lemma SizesPrinted()
    ensures DecimalString(10) == "10"
    ensures DecimalString(2048) == "2048"
  {
    assert DecimalString(10) == DecimalString(1) + [DigitChar(0)];
    assert DecimalString(2048) == DecimalString(204) + [DigitChar(8)];
    assert DecimalString(204) == DecimalString(20) + [DigitChar(4)];
    assert DecimalString(20) == DecimalString(2) + [DigitChar(0)];
  }

  lemma EntriesOfTwo(x: Attachment, y: Attachment)
    ensures Entries([x, y]) == Entry(x) + Entry(y)
  {
    var texts := EntryTexts([x, y]);
    EntryTextsAt([x, y], 0);
    EntryTextsAt([x, y], 1);
    assert texts == [Entry(x), Entry(y)];
    FlattenPair(Entry(x), Entry(y));
  }

  /** A message from a@b.com with subject "Hi", body "Hello world" and no
      attachments, in full (the literal is split only where the code splits it). */
  lemma NoAttachmentsScenario(html: JsText)
    ensures Format("a@b.com", ParsedEmail(Str("Hi"), html, Str("Hello world"), []))
         == "I received an email from a@b.com." + "\n\n## Subject \nHi" + "\n\n## Body \nHello world"
            + "\n\n## Attachments \nNo attachments\n"
  {
    var m := Format("a@b.com", ParsedEmail(Str("Hi"), html, Str("Hello world"), []));
    var t := Title("a@b.com");
    assert m == t + "\n\n## Subject \n" + "Hi" + "\n\n## Body \n" + "Hello world"
                + "\n\n" + "## Attachments \n" + "No attachments\n";
    Regroup(t, "\n\n## Subject \n", "Hi", "\n\n## Body \n", "Hello world",
            "\n\n", "## Attachments \n", "No attachments\n");
    TitleLiteral();
    SubjectLiteral();
    BodyLiteral();
    TailLiteral();
  }

  /** The literal joins the scenario above relies on, one per lemma. */
  lemma TitleLiteral()
    ensures Title("a@b.com") == "I received an email from a@b.com."
  {
  }

  lemma SubjectLiteral()
    ensures "\n\n## Subject \n" + "Hi" == "\n\n## Subject \nHi"
  {
  }

  lemma BodyLiteral()
    ensures "\n\n## Body \n" + "Hello world" == "\n\n## Body \nHello world"
  {
  }

  lemma TailLiteral()
    ensures "\n\n" + ("## Attachments \n" + "No attachments\n") == "\n\n## Attachments \nNo attachments\n"
  {
  }

  lemma Regroup(a: string, b: string, c: string, d: string, e: string, f: string, g: string, h: string)
    ensures a + b + c + d + e + f + g + h == a + (b + c) + (d + e) + (f + (g + h))
  {
  }

  /** Because nothing is escaped, a subject that contains the body heading is
      indistinguishable from a body that does: the text alone does not determine
      the message it came from. */
  lemma HeadingInjection(from: string, a: string, b: string, c: string,
                         html: JsText, atts: seq<Attachment>)
    ensures Format(from, ParsedEmail(Str(a + "\n\n## Body \n" + b), html, Str(c), atts))
         == Format(from, ParsedEmail(Str(a), html, Str(b + "\n\n## Body \n" + c), atts))
  {
    var e1 := ParsedEmail(Str(a + "\n\n## Body \n" + b), html, Str(c), atts);
    var e2 := ParsedEmail(Str(a), html, Str(b + "\n\n## Body \n" + c), atts);
    var t, sec := Title(from), AttachmentsSection(atts);
    var s, h, e, f := "\n\n## Subject \n", "\n\n## Body \n", "\n\n", "## Attachments \n";
    assert Format(from, e1) == t + s + (a + h + b) + h + c + e + f + sec;
    assert Format(from, e2) == t + s + a + h + (b + h + c) + e + f + sec;
    InjectionRegroup(t, s, a, h, b, c, e, f, sec);
  }

  /** The regrouping behind it, on opaque pieces. */
  lemma InjectionRegroup(t: string, s: string, a: string, h: string, b: string, c: string,
                         e: string, f: string, sec: string)
    ensures t + s + (a + h + b) + h + c + e + f + sec == t + s + a + h + (b + h + c) + e + f + sec
  {
  }
}

/**
 * frontend/src/app/api/send-bug/route.ts: a bug report form posted as multipart data is
 * mailed, with its files attached, to the site's owner.  The message is HTML-escaped and
 * its line breaks become `<br/>`.  SMTP itself is left out: whether `verify` and `sendMail`
 * succeed are parameters, and a successful request is answered with the mail it sends.
 */
module SendBug {
  import opened Wrappers
  import Seqs
  import Strings

  // ---------------- escaping ----------------

  /** `s.replace(/c/g, r)` for a one-character pattern. */
  function ReplaceChar(s: string, c: char, r: string): string {
    if s == [] then []
    else (if s[0] == c then r else [s[0]]) + ReplaceChar(s[1..], c, r)
  }

  lemma {:induction false} ReplaceConcat(a: string, b: string, c: char, r: string)
    ensures ReplaceChar(a + b, c, r) == ReplaceChar(a, c, r) + ReplaceChar(b, c, r)
  {
    if a != [] {
      assert (a + b)[1..] == a[1..] + b;
      ReplaceConcat(a[1..], b, c, r);
    } else {
      assert a + b == b;
    }
  }

  lemma {:induction false} ReplaceAbsent(s: string, c: char, r: string)
    requires c !in s
    ensures ReplaceChar(s, c, r) == s
  {
    if s != [] {
      assert s[1..] == s[1..] && forall x <- s[1..] :: x in s;
      ReplaceAbsent(s[1..], c, r);
    }
  }

  lemma ReplaceSingle(c: char, x: char, r: string)
    ensures ReplaceChar([c], x, r) == if c == x then r else [c]
  {
    assert [c][1..] == [];
  }

  const Amp := "&amp;"
  const Lt := "&lt;"
  const Gt := "&gt;"
  const Quot := "&quot;"
  const Apos := "&#039;"

  /** `escapeHtml`: five global replacements, `&` first. */
  function EscapeHtml(s: string): string {
    var amp := ReplaceChar(s, '&', Amp);
    var lt := ReplaceChar(amp, '<', Lt);
    var gt := ReplaceChar(lt, '>', Gt);
    var quot := ReplaceChar(gt, '"', Quot);
    ReplaceChar(quot, '\'', Apos)
  }

  /** The entity each character stands for in escaped text. */
  function EscapeChar(c: char): string {
    match c
    case '&' => Amp
    case '<' => Lt
    case '>' => Gt
    case '"' => Quot
    case '\'' => Apos
    case _ => [c]
  }

  /** The single-pass escaping: every character replaced by its entity, independently. */
  function EscapeOnce(s: string): string {
    if s == [] then [] else EscapeChar(s[0]) + EscapeOnce(s[1..])
  }

  predicate IsRawMarkup(c: char) {
    c == '<' || c == '>' || c == '"' || c == '\''
  }

  lemma EscapeConcat(a: string, b: string)
    ensures EscapeHtml(a + b) == EscapeHtml(a) + EscapeHtml(b)
  {
    ReplaceConcat(a, b, '&', "&amp;");
    var a1, b1 := ReplaceChar(a, '&', "&amp;"), ReplaceChar(b, '&', "&amp;");
    ReplaceConcat(a1, b1, '<', "&lt;");
    var a2, b2 := ReplaceChar(a1, '<', "&lt;"), ReplaceChar(b1, '<', "&lt;");
    ReplaceConcat(a2, b2, '>', "&gt;");
    var a3, b3 := ReplaceChar(a2, '>', "&gt;"), ReplaceChar(b2, '>', "&gt;");
    ReplaceConcat(a3, b3, '"', "&quot;");
    var a4, b4 := ReplaceChar(a3, '"', "&quot;"), ReplaceChar(b3, '"', "&quot;");
    ReplaceConcat(a4, b4, '\'', "&#039;");
  }

  /** What an entity is made of: no raw markup, no line break. */
  predicate IsEntityText(e: string) {
    forall x <- e :: !IsRawMarkup(x) && x != '\n'
  }

  /** The replacements after the first leave entity text alone. */
  lemma EntitySurvives(e: string)
    requires IsEntityText(e)
    ensures ReplaceChar(e, '<', Lt) == e && ReplaceChar(e, '>', Gt) == e
    ensures ReplaceChar(e, '"', Quot) == e && ReplaceChar(e, '\'', Apos) == e
    ensures ReplaceChar(e, '\n', "<br/>") == e
  {
    ReplaceAbsent(e, '<', Lt);
    ReplaceAbsent(e, '>', Gt);
    ReplaceAbsent(e, '"', Quot);
    ReplaceAbsent(e, '\'', Apos);
    ReplaceAbsent(e, '\n', "<br/>");
  }

  lemma EntitiesAreEntityText()
    ensures IsEntityText(Amp) && IsEntityText(Lt) && IsEntityText(Gt)
    ensures IsEntityText(Quot) && IsEntityText(Apos)
  {
  }

  /** On one character the five replacements give that character's entity. */
  lemma EscapeOneChar(c: char)
    ensures EscapeHtml([c]) == EscapeChar(c)
  {
    EntitiesAreEntityText();
    ReplaceSingle(c, '&', Amp);
    if c == '&' {
      EntitySurvives(Amp);
      return;
    }
    ReplaceSingle(c, '<', Lt);
    if c == '<' {
      EntitySurvives(Lt);
      return;
    }
    ReplaceSingle(c, '>', Gt);
    if c == '>' {
      EntitySurvives(Gt);
      return;
    }
    ReplaceSingle(c, '"', Quot);
    if c == '"' {
      EntitySurvives(Quot);
      return;
    }
    ReplaceSingle(c, '\'', Apos);
  }

  /** The entity of a character is entity text, unless the character is plain. */
  lemma EscapeCharShape(c: char)
    ensures EscapeChar(c) == [c] || IsEntityText(EscapeChar(c))
    ensures forall x <- EscapeChar(c) :: !IsRawMarkup(x)
    ensures '\n' in EscapeChar(c) <==> c == '\n'
    ensures c == '\n' ==> EscapeChar(c) == [c]
  {
    EntitiesAreEntityText();
  }

  /**
   * Because `&` is replaced first, the replacement chain escapes every character exactly
   * once: the entities introduced by later replacements are not escaped again.
   */
  lemma {:induction false} EscapeHtmlIsSinglePass(s: string)
    ensures EscapeHtml(s) == EscapeOnce(s)
  {
    if s == [] {
    } else {
      assert s == [s[0]] + s[1..];
      EscapeConcat([s[0]], s[1..]);
      EscapeOneChar(s[0]);
      EscapeHtmlIsSinglePass(s[1..]);
    }
  }

  /** Escaped text holds no raw `<`, `>`, `"` or `'`. */
  lemma {:induction false} EscapedHasNoRawMarkup(s: string)
    ensures forall c <- EscapeHtml(s) :: !IsRawMarkup(c)
  {
    EscapeHtmlIsSinglePass(s);
    NoRawMarkupInEscapeOnce(s);
  }

  lemma {:induction false} NoRawMarkupInEscapeOnce(s: string)
    ensures forall c <- EscapeOnce(s) :: !IsRawMarkup(c)
  {
    if s != [] {
      NoRawMarkupInEscapeOnce(s[1..]);
      var e := EscapeChar(s[0]);
      EscapeCharShape(s[0]);
      assert forall c <- EscapeOnce(s) :: c in e || c in EscapeOnce(s[1..]);
    }
  }

  /** Text without any of the five characters is left as it is. */
  lemma EscapePlain(s: string)
    requires '&' !in s && !(exists c <- s :: IsRawMarkup(c))
    ensures EscapeHtml(s) == s
  {
    ReplaceAbsent(s, '&', Amp);
    ReplaceAbsent(s, '<', Lt);
    ReplaceAbsent(s, '>', Gt);
    ReplaceAbsent(s, '"', Quot);
    ReplaceAbsent(s, '\'', Apos);
  }

  /** An entity already in the message is escaped again: its `&` becomes "&amp;". */
  lemma EscapeOfEntity()
    ensures EscapeHtml("&lt;") == "&amp;lt;"
  {
    var a, b := "&", "lt;";
    assert a + b == "&lt;" && a == ['&'];
    EscapeConcat(a, b);
    EscapeOneChar('&');
    EscapePlain(b);
    assert Amp + b == "&amp;lt;";
  }

  // ---------------- unescaping, the inverse ----------------

  function Unescape(t: string): string
    decreases |t|
  {
    if t == [] then []
    else if Strings.StartsWith(t, Amp) then "&" + Unescape(t[5..])
    else if Strings.StartsWith(t, Lt) then "<" + Unescape(t[4..])
    else if Strings.StartsWith(t, Gt) then ">" + Unescape(t[4..])
    else if Strings.StartsWith(t, Quot) then "\"" + Unescape(t[6..])
    else if Strings.StartsWith(t, Apos) then "'" + Unescape(t[6..])
    else [t[0]] + Unescape(t[1..])
  }

  lemma UnescapeStep(c: char, rest: string)
    ensures Unescape(EscapeChar(c) + rest) == [c] + Unescape(rest)
  {
    if c == '&' || c == '<' || c == '>' {
      UnescapeShortEntity(c, rest);
    } else if c == '"' || c == '\'' {
      UnescapeLongEntity(c, rest);
    } else {
      var t := EscapeChar(c) + rest;
      assert t[0] == c && t[1..] == rest;
    }
  }

  lemma UnescapeShortEntity(c: char, rest: string)
    requires c == '&' || c == '<' || c == '>'
    ensures Unescape(EscapeChar(c) + rest) == [c] + Unescape(rest)
  {
    var t := EscapeChar(c) + rest;
    if c == '&' {
      assert t[..5] == Amp && t[5..] == rest;
    } else if c == '<' {
      assert t[..4] == Lt && t[4..] == rest;
      assert t[1] != Amp[1];
    } else {
      assert t[..4] == Gt && t[4..] == rest;
      assert t[1] != Amp[1] && t[1] != Lt[1];
    }
  }

  lemma UnescapeLongEntity(c: char, rest: string)
    requires c == '"' || c == '\''
    ensures Unescape(EscapeChar(c) + rest) == [c] + Unescape(rest)
  {
    var t := EscapeChar(c) + rest;
    if c == '"' {
      assert t[..6] == Quot && t[6..] == rest;
      assert t[1] != Amp[1] && t[1] != Lt[1] && t[1] != Gt[1];
    } else {
      assert t[..6] == Apos && t[6..] == rest;
      assert t[1] != Amp[1] && t[1] != Lt[1] && t[1] != Gt[1] && t[1] != Quot[1];
    }
  }

  /** Decoding the five entities gives back the text that was escaped. */
  lemma {:induction false} UnescapeEscape(s: string)
    ensures Unescape(EscapeHtml(s)) == s
  {
    EscapeHtmlIsSinglePass(s);
    UnescapeEscapeOnce(s);
  }

  lemma {:induction false} UnescapeEscapeOnce(s: string)
    ensures Unescape(EscapeOnce(s)) == s
  {
    if s != [] {
      UnescapeStep(s[0], EscapeOnce(s[1..]));
      UnescapeEscapeOnce(s[1..]);
    }
  }

  /** Different messages give different escaped text. */
  lemma EscapeInjective(a: string, b: string)
    ensures EscapeHtml(a) == EscapeHtml(b) ==> a == b
  {
    UnescapeEscape(a);
    UnescapeEscape(b);
  }

  // ---------------- the message ----------------

  const NoMessage := "<em>(no message)</em>"

  /** `text ? escapeHtml(text).replace(/\n/g, "<br/>") : "<em>(no message)</em>"`. */
  function RenderMessage(text: string): string {
    if text == "" then NoMessage else ReplaceChar(EscapeHtml(text), '\n', "<br/>")
  }

  /** A character of the message as it appears in the mail. */
  function RenderChar(c: char): string {
    if c == '\n' then "<br/>" else EscapeChar(c)
  }

  function RenderOnce(s: string): string {
    if s == [] then [] else RenderChar(s[0]) + RenderOnce(s[1..])
  }

  /**
   * The line breaks are turned into `<br/>` after escaping: a non-empty message appears
   * character by character, each line break as a `<br/>` tag that is not escaped and every
   * other character as its entity.
   */
  lemma {:induction false} RenderMessageIsPerChar(text: string)
    requires text != ""
    ensures RenderMessage(text) == RenderOnce(text)
  {
    EscapeHtmlIsSinglePass(text);
    BreaksAfterEscaping(text);
  }

  lemma {:induction false} BreaksAfterEscaping(s: string)
    ensures ReplaceChar(EscapeOnce(s), '\n', "<br/>") == RenderOnce(s)
  {
    if s != [] {
      ReplaceConcat(EscapeChar(s[0]), EscapeOnce(s[1..]), '\n', "<br/>");
      var e := EscapeChar(s[0]);
      EscapeCharShape(s[0]);
      if s[0] == '\n' {
        ReplaceSingle(s[0], '\n', "<br/>");
      } else if e == [s[0]] {
        ReplaceSingle(s[0], '\n', "<br/>");
      } else {
        EntitySurvives(e);
      }
      BreaksAfterEscaping(s[1..]);
    }
  }

  /** Only a line break renders as something opening with `<`, and then as `<br/>`. */
  lemma RenderCharHead(c: char)
    ensures |RenderChar(c)| >= 1
    ensures RenderChar(c)[0] == '<' ==> RenderChar(c) == "<br/>"
  {
  }

  /** Only an empty message, after trimming, is shown as the placeholder. */
  lemma PlaceholderOnlyForEmpty(text: string)
    ensures RenderMessage(text) == NoMessage <==> text == ""
  {
    if text != "" {
      var r := RenderMessage(text);
      RenderMessageIsPerChar(text);
      var head := RenderChar(text[0]);
      assert r == head + RenderOnce(text[1..]);
      RenderCharHead(text[0]);
      if head == "<br/>" {
        assert r[1] == 'b' && NoMessage[1] == 'e';
      } else {
        assert r[0] == head[0] != '<' && NoMessage[0] == '<';
      }
    }
  }

  /** A line without breaks shows no raw markup of the sender's. */
  lemma OneLineHasNoRawMarkup(text: string)
    requires text != "" && '\n' !in text
    ensures forall c <- RenderMessage(text) :: !IsRawMarkup(c)
  {
    EscapedHasNoRawMarkup(text);
    ReplaceAbsent(EscapeHtml(text), '\n', "<br/>") by {
      EscapeHtmlIsSinglePass(text);
      NoBreakInEscapeOnce(text);
    }
  }

  lemma {:induction false} NoBreakInEscapeOnce(s: string)
    requires '\n' !in s
    ensures '\n' !in EscapeOnce(s)
  {
    if s != [] {
      assert s[0] in s && forall x <- s[1..] :: x in s;
      EscapeCharShape(s[0]);
      NoBreakInEscapeOnce(s[1..]);
    }
  }

  /** The htmlBody template around the rendered message. */
  const BodyHead := "\n      <div style=\"font-family: system-ui, -apple-system, Roboto, Arial; padding: 16px;\">\n        <h2 style=\"color:#e63946; margin-bottom:8px;\">\U{1F41E} New Bug Report</h2>\n        <p><strong>Message:</strong></p>\n        <div style=\"background:#f8f9fa;padding:10px;border-radius:6px;\">\n          "
  const BodyTail := "\n        </div>\n        <p style=\"font-size:12px;color:#666;margin-top:8px;\">Sent from app</p>\n      </div>\n    "

  function HtmlBody(text: string): string {
    BodyHead + RenderMessage(text) + BodyTail
  }

  // ---------------- attachments ----------------

  /** A value of the submitted form: text, or a file with its name, bytes and MIME type. */
  datatype FormValue =
    | TextValue(text: string)
    | FileValue(name: string, content: seq<bv8>, mimeType: string)

  datatype FormEntry = FormEntry(key: string, value: FormValue)

  datatype Attachment = Attachment(filename: string, content: seq<bv8>, contentType: Option<string>)

  /** The attachment made of a file; `now` stands for `Date.now()`. */
  function AttachmentOf(v: FormValue, now: int): Attachment
    requires v.FileValue?
  {
    Attachment(if v.name != "" then v.name else "attachment-" + Strings.IntToString(now),
               v.content,
               if v.mimeType != "" then Some(v.mimeType) else None)
  }

  predicate IsFile(e: FormEntry) { e.value.FileValue? }

  /** The form's file entries, in form order. */
  function Files(entries: seq<FormEntry>): seq<FormEntry> {
    Seqs.Filter(entries, IsFile)
  }

  /** The attachments the form gives, in form order. */
  function AttachmentsOf(entries: seq<FormEntry>, now: int): seq<Attachment> {
    if entries == [] then []
    else
      var last := entries[|entries| - 1];
      AttachmentsOf(entries[..|entries| - 1], now)
      + (if IsFile(last) then [AttachmentOf(last.value, now)] else [])
  }

  /** There is one attachment per file entry, the i-th made of the i-th file. */
  lemma {:induction false} AttachmentsMatchFiles(entries: seq<FormEntry>, now: int)
    ensures var atts, files := AttachmentsOf(entries, now), Files(entries);
      |atts| == |files|
      && forall i :: 0 <= i < |atts| ==> files[i].value.FileValue? && atts[i] == AttachmentOf(files[i].value, now)
  {
    if entries != [] {
      var init, last := entries[..|entries| - 1], entries[|entries| - 1];
      assert entries == init + [last];
      AttachmentsMatchFiles(init, now);
      Seqs.FilterSnoc(init, last, IsFile);
    }
  }

  /** `buildAttachmentsFromForm`. */
  method BuildAttachments(entries: seq<FormEntry>, now: int) returns (attachments: seq<Attachment>)
    ensures attachments == AttachmentsOf(entries, now)
  {
    attachments := [];
    for i := 0 to |entries|
      invariant attachments == AttachmentsOf(entries[..i], now)
    {
      assert entries[..i + 1][..i] == entries[..i];
      if entries[i].value.FileValue? {
        attachments := attachments + [AttachmentOf(entries[i].value, now)];
      }
    }
    assert entries[..|entries|] == entries;
  }

  // ---------------- the route ----------------

  datatype Mail = Mail(from: string, to: string, subject: string, html: string, attachments: seq<Attachment>)

  datatype Outcome =
    | MissingCredentials  // 500, GMAIL_USER or GMAIL_APP_PASSWORD unset
    | VerifyFailed        // 500, SMTP verify failed
    | SendFailed          // 500, sendMail failed
    | Sent(mail: Mail)    // 200 `{ success: true }`

  const Subject := "\U{1F41E} New Bug Report with Attachments"

  /** An environment variable's value as a possibly empty string. */
  function EnvOr(v: Option<string>, default: string): string {
    if v.Some? && v.value != "" then v.value else default
  }

  /**
   * `POST`.  `text` is the form's "text" value; the environment variables are parameters
   * and so are the verdicts of `transporter.verify` and `transporter.sendMail`.
   */
  method Post(text: Option<string>, entries: seq<FormEntry>, gmailUser: Option<string>,
              gmailPass: Option<string>, gmailTarget: Option<string>,
              verifyOk: bool, sendOk: bool, now: int) returns (out: Outcome)
    ensures EnvOr(gmailUser, "") == "" || EnvOr(gmailPass, "") == "" <==> out == MissingCredentials
    ensures out == VerifyFailed <==> out != MissingCredentials && !verifyOk
    ensures out == SendFailed <==> out != MissingCredentials && verifyOk && !sendOk
    ensures out.Sent? <==> EnvOr(gmailUser, "") != "" && EnvOr(gmailPass, "") != "" && verifyOk && sendOk
    ensures out.Sent? ==>
      var user := gmailUser.value;
      out.mail == Mail("\"Bug Reporter\" <" + user + ">", EnvOr(gmailTarget, user), Subject,
                       HtmlBody(Strings.Trim(text.GetOr(""))), AttachmentsOf(entries, now))
  {
    var message := Strings.Trim(text.GetOr(""));
    var attachments := BuildAttachments(entries, now);
    var user := EnvOr(gmailUser, "");
    var pass := EnvOr(gmailPass, "");
    var target := EnvOr(gmailTarget, user);
    if user == "" || pass == "" {
      return MissingCredentials;
    }
    if !verifyOk {
      return VerifyFailed;
    }
    if !sendOk {
      return SendFailed;
    }
    out := Sent(Mail("\"Bug Reporter\" <" + user + ">", target, Subject, HtmlBody(message), attachments));
  }
}
